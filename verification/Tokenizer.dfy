/** The demo's splitting of a command line into arguments, over runes. */
module Tokenizer {
  import opened Outcomes

  /** The arguments of a line, or the quote that was left open. */
  datatype Split = Args(args: seq<string>) | Unterminated(quote: char)

  /** The state between two runes: arguments so far, the one being built, the open quote, a pending escape. */
  datatype Lexer = Lexer(args: seq<string>, b: string, quote: Option<char>, escaped: bool)

  const START := Lexer([], "", None, false)

  predicate IsSpace(r: char) { r == ' ' || r == '\t' || r == '\n' || r == '\r' }

  predicate AllSpaces(s: string) { forall i :: 0 <= i < |s| ==> IsSpace(s[i]) }

  predicate IsQuote(r: char) { r == '\'' || r == '"' }

  /** What one rune does. */
  function Next(l: Lexer, r: char): Lexer {
    if l.escaped then l.(b := l.b + [r], escaped := false)
    else if r == '\\' then l.(escaped := true)
    else if l.quote.Some? then
      if r == l.quote.value then l.(quote := None) else l.(b := l.b + [r])
    else if IsQuote(r) then l.(quote := Some(r))
    else if IsSpace(r) then
      if l.b != "" then l.(args := l.args + [l.b], b := "") else l
    else l.(b := l.b + [r])
  }

  function Scan(l: Lexer, line: string): Lexer
    decreases |line|
  {
    if line == "" then l else Scan(Next(l, line[0]), line[1..])
  }

  /** What is made of the state at the end: a dangling backslash stands for itself. */
  function Finish(l: Lexer): Split {
    var b := if l.escaped then l.b + "\\" else l.b;
    if l.quote.Some? then Unterminated(l.quote.value)
    else if b != "" then Args(l.args + [b])
    else Args(l.args)
  }

  function SplitOf(line: string): Split { Finish(Scan(START, line)) }

  method SplitArgs(line: string) returns (r: Split)
    ensures r == SplitOf(line)
  {
    var args: seq<string> := [];
    var b := "";
    var quote: Option<char> := None;
    var escaped := false;
    for i := 0 to |line|
      invariant Scan(Lexer(args, b, quote, escaped), line[i..]) == Scan(START, line)
    {
      var rune := line[i];
      assert line[i..][0] == rune && line[i..][1..] == line[i + 1..];
      if escaped {
        b := b + [rune];
        escaped := false;
        continue;
      }
      if rune == '\\' {
        escaped := true;
        continue;
      }
      if quote != None {
        if rune == quote.value {
          quote := None;
          continue;
        }
        b := b + [rune];
        continue;
      }
      if rune == '\'' || rune == '"' {
        quote := Some(rune);
        continue;
      }
      if rune == ' ' || rune == '\t' || rune == '\n' || rune == '\r' {
        if |b| > 0 {
          args := args + [b];
          b := "";
        }
        continue;
      }
      b := b + [rune];
    }
    assert line[|line|..] == "";
    ghost var last := Lexer(args, b, quote, escaped);
    if escaped {
      b := b + "\\";
    }
    if quote != None {
      return Unterminated(quote.value);
    }
    if |b| > 0 {
      args := args + [b];
    }
    r := Args(args);
    assert r == Finish(last);
  }

  lemma {:induction false} ScanConcat(l: Lexer, a: string, b: string)
    ensures Scan(l, a + b) == Scan(Scan(l, a), b)
    decreases |a|
  {
    if a == "" {
      assert a + b == b;
    } else {
      ScanConcat(Next(l, a[0]), a[1..], b);
      assert (a + b)[0] == a[0] && (a + b)[1..] == a[1..] + b;
    }
  }

  lemma ScanOne(l: Lexer, r: char)
    ensures Scan(l, [r]) == Next(l, r)
  {
    assert [r][1..] == "";
  }

  lemma ScanTwo(l: Lexer, q: char, r: char)
    ensures Scan(l, [q, r]) == Next(Next(l, q), r)
  {
    assert [q, r][1..] == [r];
    ScanOne(Next(l, q), r);
  }

  // ---- no empty arguments ------------------------------------------------------------------

  lemma {:induction false} ScanKeepsNonEmpty(l: Lexer, line: string)
    requires "" !in l.args
    ensures "" !in Scan(l, line).args
    decreases |line|
  {
    if line != "" {
      ScanKeepsNonEmpty(Next(l, line[0]), line[1..]);
    }
  }

  /** Splitting never produces an empty argument, not even for empty quotes. */
  lemma NoEmptyArguments(line: string)
    ensures SplitOf(line).Args? ==> "" !in SplitOf(line).args
  {
    ScanKeepsNonEmpty(START, line);
  }

  // ---- round trip --------------------------------------------------------------------------

  /** An argument is written with escapes, or between quotes of one kind. */
  datatype Style = Escaped | Quoted(mark: char)

  predicate IsSpecial(r: char) { r == '\\' || IsQuote(r) || IsSpace(r) }

  /** The runes that must be escaped in each style. */
  predicate NeedsEscape(style: Style, r: char) {
    if style.Escaped? then IsSpecial(r) else r == '\\' || r == style.mark
  }

  function Body(style: Style, arg: string): string {
    if arg == "" then ""
    else
      var r := arg[|arg| - 1];
      Body(style, arg[..|arg| - 1]) + if NeedsEscape(style, r) then ['\\', r] else [r]
  }

  function Written(style: Style, arg: string): string {
    if style.Escaped? then Body(style, arg) else [style.mark] + Body(style, arg) + [style.mark]
  }

  /** One argument on a line: the white space before it, how it is written, and what it is. */
  datatype Piece = Piece(gap: string, style: Style, arg: string) {
    ghost predicate Proper() {
      && AllSpaces(gap)
      && (style.Quoted? ==> IsQuote(style.mark))
      && arg != ""
    }
  }

  /** Proper pieces, separated by white space. */
  ghost predicate Separated(pieces: seq<Piece>) {
    && (forall p <- pieces :: p.Proper())
    && forall i :: 0 < i < |pieces| ==> pieces[i].gap != ""
  }

  function LineOf(pieces: seq<Piece>): string {
    if pieces == [] then ""
    else
      var last := pieces[|pieces| - 1];
      LineOf(pieces[..|pieces| - 1]) + (last.gap + Written(last.style, last.arg))
  }

  function ArgsOf(pieces: seq<Piece>): seq<string> {
    seq(|pieces|, i requires 0 <= i < |pieces| => pieces[i].arg)
  }

  /** Inside an argument, the open quote being that of the style. */
  function Inside(l: Lexer, style: Style): Lexer {
    if style.Escaped? then l else l.(quote := Some(style.mark))
  }

  lemma {:induction false} BodyScans(l: Lexer, style: Style, arg: string)
    requires l.quote == None && !l.escaped
    requires style.Quoted? ==> IsQuote(style.mark)
    ensures Scan(Inside(l, style), Body(style, arg)) == Inside(l, style).(b := l.b + arg)
  {
    if arg == "" {
      assert l.b + arg == l.b;
    } else {
      var k := |arg| - 1;
      var r, inside := arg[k], Inside(l, style).(b := l.b + arg[..k]);
      BodyScans(l, style, arg[..k]);
      assert l.b + arg == l.b + arg[..k] + [r];
      if NeedsEscape(style, r) {
        ScanConcat(Inside(l, style), Body(style, arg[..k]), ['\\', r]);
        ScanTwo(inside, '\\', r);
      } else {
        ScanConcat(Inside(l, style), Body(style, arg[..k]), [r]);
        ScanOne(inside, r);
      }
    }
  }

  lemma WrittenScans(l: Lexer, style: Style, arg: string)
    requires l.quote == None && !l.escaped
    requires style.Quoted? ==> IsQuote(style.mark)
    ensures Scan(l, Written(style, arg)) == l.(b := l.b + arg)
  {
    BodyScans(l, style, arg);
    if style.Quoted? {
      var body, inside := Body(style, arg), Inside(l, style).(b := l.b + arg);
      ScanConcat(l, [style.mark] + body, [style.mark]);
      ScanConcat(l, [style.mark], body);
      ScanOne(l, style.mark);
      ScanOne(inside, style.mark);
    }
  }

  /** White space ends the argument being built and changes nothing more. */
  lemma {:induction false} GapScans(l: Lexer, gap: string)
    requires l.quote == None && !l.escaped && AllSpaces(gap)
    ensures Scan(l, gap) ==
            if gap != "" && l.b != "" then Lexer(l.args + [l.b], "", None, false) else l
    decreases |gap|
  {
    if gap != "" {
      GapScans(Next(l, gap[0]), gap[1..]);
    }
  }

  lemma {:induction false} PiecesScan(pieces: seq<Piece>)
    requires Separated(pieces)
    ensures Scan(START, LineOf(pieces)) ==
            if pieces == [] then START
            else Lexer(ArgsOf(pieces[..|pieces| - 1]), pieces[|pieces| - 1].arg, None, false)
  {
    if pieces != [] {
      var k := |pieces| - 1;
      var front, last := pieces[..k], pieces[k];
      assert last.Proper() && (k > 0 ==> last.gap != "");
      PiecesScan(front);
      var before := Scan(START, LineOf(front));
      var between := Lexer(ArgsOf(front), "", None, false);
      ScanConcat(START, LineOf(front), last.gap + Written(last.style, last.arg));
      ScanConcat(before, last.gap, Written(last.style, last.arg));
      GapAfterPieces(front, before, last.gap);
      WrittenScans(between, last.style, last.arg);
      assert "" + last.arg == last.arg;
    }
  }

  lemma GapAfterPieces(pieces: seq<Piece>, l: Lexer, gap: string)
    requires Separated(pieces) && AllSpaces(gap) && (pieces != [] ==> gap != "")
    requires l == if pieces == [] then START
                  else Lexer(ArgsOf(pieces[..|pieces| - 1]), pieces[|pieces| - 1].arg, None, false)
    ensures Scan(l, gap) == Lexer(ArgsOf(pieces), "", None, false)
  {
    GapScans(l, gap);
    if pieces != [] {
      var k := |pieces| - 1;
      assert pieces[k].Proper();
      assert ArgsOf(pieces) == ArgsOf(pieces[..k]) + [pieces[k].arg];
    }
  }

  /** Outside quotes and escapes, the argument being built is the last one, if it has anything in it. */
  function Collected(l: Lexer): seq<string> { if l.b == "" then l.args else l.args + [l.b] }

  lemma FinishOutside(l: Lexer)
    requires l.quote == None && !l.escaped
    ensures Finish(l) == Args(Collected(l))
  {}

  lemma PiecesAndTail(pieces: seq<Piece>, tail: string)
    requires Separated(pieces) && AllSpaces(tail)
    ensures var l := Scan(START, LineOf(pieces) + tail);
            l.quote == None && !l.escaped && Collected(l) == ArgsOf(pieces)
  {
    PiecesScan(pieces);
    ScanConcat(START, LineOf(pieces), tail);
    var l := Scan(START, LineOf(pieces));
    if tail == "" && pieces != [] {
      LastIsCollected(pieces, l);
    } else {
      GapAfterPieces(pieces, l, tail);
    }
  }

  lemma LastIsCollected(pieces: seq<Piece>, l: Lexer)
    requires pieces != [] && Separated(pieces)
    requires l == Lexer(ArgsOf(pieces[..|pieces| - 1]), pieces[|pieces| - 1].arg, None, false)
    ensures Collected(l) == ArgsOf(pieces)
  {
    var k := |pieces| - 1;
    assert pieces[k].Proper();
    assert ArgsOf(pieces) == ArgsOf(pieces[..k]) + [pieces[k].arg];
  }

  /**
    Round trip: arguments written with escapes or in quotes, in any mixture, with white space between them
    and possibly around them, are split into exactly those arguments.
   */
  lemma SplitUndoesWriting(pieces: seq<Piece>, tail: string)
    requires Separated(pieces) && AllSpaces(tail)
    ensures SplitOf(LineOf(pieces) + tail) == Args(ArgsOf(pieces))
  {
    PiecesAndTail(pieces, tail);
    FinishOutside(Scan(START, LineOf(pieces) + tail));
  }

  /** Runes without a meaning of their own. */
  predicate IsPlain(r: char) { r != ' ' && r != '\t' && r != '\n' && r != '\r' && r != '\\' && r != '\'' && r != '"' }

  lemma {:induction false} PlainBody(arg: string)
    requires forall i :: 0 <= i < |arg| ==> IsPlain(arg[i])
    ensures Body(Escaped, arg) == arg
  {
    if arg != "" {
      PlainBody(arg[..|arg| - 1]);
    }
  }

  lemma PlainScans(l: Lexer, arg: string)
    requires l.quote == None && !l.escaped
    requires forall i :: 0 <= i < |arg| ==> IsPlain(arg[i])
    ensures Scan(l, arg) == l.(b := l.b + arg)
  {
    PlainBody(arg);
    WrittenScans(l, Escaped, arg);
  }

  /** They make one argument as they are. */
  lemma PlainRunesStay(arg: string)
    requires arg != "" && forall i :: 0 <= i < |arg| ==> IsPlain(arg[i])
    ensures SplitOf(arg) == Args([arg])
  {
    PlainScans(START, arg);
    FinishOutside(Scan(START, arg));
    assert "" + arg == arg;
  }

  // ---- lines that do not end well -----------------------------------------------------------

  /** After some arguments and a gap, the lexer is outside quotes and escapes. */
  lemma OutsideAfterPieces(pieces: seq<Piece>, gap: string)
    requires Separated(pieces) && AllSpaces(gap)
    ensures Scan(START, LineOf(pieces) + gap).quote == None && !Scan(START, LineOf(pieces) + gap).escaped
    ensures (pieces != [] ==> gap != "") ==>
              Scan(START, LineOf(pieces) + gap) == Lexer(ArgsOf(pieces), "", None, false)
  {
    PiecesScan(pieces);
    ScanConcat(START, LineOf(pieces), gap);
    var l := Scan(START, LineOf(pieces));
    GapScans(l, gap);
    if pieces != [] ==> gap != "" {
      GapAfterPieces(pieces, l, gap);
    }
  }

  /** A quote that is opened behind some arguments and not closed is an error, and it is that quote. */
  lemma OpenQuoteIsReported(pieces: seq<Piece>, gap: string, mark: char, text: string)
    requires Separated(pieces) && AllSpaces(gap) && IsQuote(mark)
    ensures SplitOf(LineOf(pieces) + gap + ([mark] + Body(Quoted(mark), text))) == Unterminated(mark)
  {
    var front, l := LineOf(pieces) + gap, Scan(START, LineOf(pieces) + gap);
    OutsideAfterPieces(pieces, gap);
    ScanConcat(START, front, [mark] + Body(Quoted(mark), text));
    ScanConcat(l, [mark], Body(Quoted(mark), text));
    ScanOne(l, mark);
    BodyScans(l, Quoted(mark), text);
  }

  /** A backslash at the very end stands for itself. */
  lemma DanglingBackslashStands(pieces: seq<Piece>, gap: string, arg: string)
    requires Separated(pieces) && AllSpaces(gap) && (pieces != [] ==> gap != "")
    ensures SplitOf(LineOf(pieces) + gap + (Body(Escaped, arg) + "\\")) == Args(ArgsOf(pieces) + [arg + "\\"])
  {
    var front, l := LineOf(pieces) + gap, Lexer(ArgsOf(pieces), "", None, false);
    OutsideAfterPieces(pieces, gap);
    ScanConcat(START, front, Body(Escaped, arg) + "\\");
    ScanConcat(l, Body(Escaped, arg), "\\");
    BodyScans(l, Escaped, arg);
    assert "" + arg == arg;
    ScanOne(Scan(l, Body(Escaped, arg)), '\\');
  }

  // ---- composition -------------------------------------------------------------------------

  /** The line ends outside quotes and escapes. */
  predicate EndsOutside(a: string) {
    Scan(START, a).quote == None && !Scan(START, a).escaped
  }

  /** Two splits one after the other; an open quote spoils the whole. */
  function Both(x: Split, y: Split): Split {
    if x.Unterminated? then x
    else if y.Unterminated? then y
    else Args(x.args + y.args)
  }

  ghost predicate Composes(a: string) {
    forall b :: SplitOf(a + " " + b) == Both(SplitOf(a), SplitOf(b))
  }

  /** Arguments already collected stay in front, whatever follows. */
  lemma {:induction false} EarlierArgsStay(args: seq<string>, l: Lexer, line: string)
    ensures Scan(l.(args := args + l.args), line) == Scan(l, line).(args := args + Scan(l, line).args)
    decreases |line|
  {
    if line != "" {
      var l', r := l.(args := args + l.args), line[0];
      assert args + (l.args + [l.b]) == args + l.args + [l.b];
      assert Next(l', r) == Next(l, r).(args := args + Next(l, r).args);
      EarlierArgsStay(args, Next(l, r), line[1..]);
    }
  }

  /** Whichever blank stands between. */
  lemma ComposesOutside(a: string, blank: char, b: string)
    requires EndsOutside(a) && (blank == ' ' || blank == '\t' || blank == '\n' || blank == '\r')
    ensures SplitOf(a + [blank] + b) == Both(SplitOf(a), SplitOf(b))
  {
    var l := Scan(START, a);
    var args := SplitOf(a).args;
    ScanConcat(START, a + [blank], b);
    ScanConcat(START, a, [blank]);
    ScanOne(l, blank);
    assert Scan(START, a + [blank]) == START.(args := args + START.args);
    EarlierArgsStay(args, START, b);
    var m := Scan(START, b);
    assert args + (m.args + [m.b]) == args + m.args + [m.b];
    assert args + (m.args + [m.b + "\\"]) == args + m.args + [m.b + "\\"];
  }

  lemma {:induction false} OpenQuoteIsQuote(l: Lexer, line: string)
    requires l.quote.Some? ==> IsQuote(l.quote.value)
    ensures Scan(l, line).quote.Some? ==> IsQuote(Scan(l, line).quote.value)
    decreases |line|
  {
    if line != "" {
      OpenQuoteIsQuote(Next(l, line[0]), line[1..]);
    }
  }

  /** Otherwise there is a second line that tells the difference: the open quote's end, or nothing. */
  lemma DoesNotCompose(a: string) returns (b: string)
    requires !EndsOutside(a)
    ensures SplitOf(a + " " + b) != Both(SplitOf(a), SplitOf(b))
  {
    var l := Scan(START, a);
    ScanConcat(START, a, " ");
    ScanOne(l, ' ');
    if l.quote.Some? {
      OpenQuoteIsQuote(START, a);
      b := [l.quote.value];
      ScanConcat(START, a + " ", b);
      ScanOne(Next(l, ' '), l.quote.value);
    } else {
      b := "";
      assert a + " " + b == a + " ";
      assert (l.b + " ")[|l.b|] != (l.b + "\\")[|l.b|];
      var x, y := l.args + [l.b + " "], l.args + [l.b + "\\"];
      assert x[|l.args|] != y[|l.args|];
      assert SplitOf(a + " ") == Args(x) && SplitOf(a) == Args(y);
      assert SplitOf("") == Args([]) && y + [] == y;
    }
  }

  /**
    Splitting `a`, a blank and `b` is splitting both and joining the results, for all `b`, exactly when `a`
    ends outside quotes and escapes.
   */
  lemma CompositionCondition(a: string)
    ensures Composes(a) <==> EndsOutside(a)
  {
    if EndsOutside(a) {
      forall b
        ensures SplitOf(a + " " + b) == Both(SplitOf(a), SplitOf(b))
      {
        ComposesOutside(a, ' ', b);
      }
    } else {
      var b := DoesNotCompose(a);
    }
  }
}
