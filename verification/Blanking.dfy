/**
  The two scanners that blank out everything but code: the state machine of
  scripts/check-dogfood.py and the jump scanner of
  scripts/check-test-registered.py.
 */
module Blanking {
  import opened CLexer
  import opened Sequences

  // --- What blanking should give -------------------------------------------------

  /** Every character but a line break becomes a space. */
  function Spaces(text: string): (r: string)
    ensures |r| == |text|
    ensures forall k :: 0 <= k < |text| ==> r[k] == if text[k] == '\n' then '\n' else ' '
  {
    seq(|text|, k requires 0 <= k < |text| => if text[k] == '\n' then '\n' else ' ')
  }

  /** Code is kept, the rest becomes spaces. */
  function Render(text: string, state: State): (r: string)
  {
    if text == [] then ""
    else
      var w, next := Width(state, text), Next(state, text);
      (if state == Code && next == Code then text[..w] else Spaces(text[..w])) + Render(text[w..], next)
  }

  /** Rendering keeps the length, every line break where it is, and adds only spaces. */
  lemma {:induction false} RenderKeepsLines(text: string, state: State)
    ensures |Render(text, state)| == |text|
    ensures forall k :: 0 <= k < |text| ==> (Render(text, state)[k] == '\n' <==> text[k] == '\n')
    ensures forall k :: 0 <= k < |text| ==> Render(text, state)[k] == text[k] || Render(text, state)[k] == ' '
  {
    if text != [] {
      var w, next := Width(state, text), Next(state, text);
      var rest := text[w..];
      RenderKeepsLines(rest, next);
      var r := Render(text, state);
      forall k | 0 <= k < |text|
        ensures |r| == |text| && (r[k] == '\n' <==> text[k] == '\n') && (r[k] == text[k] || r[k] == ' ')
      {
        if k >= w {
          assert r[k] == Render(rest, next)[k - w] && text[k] == rest[k - w];
        }
      }
    }
  }

  // --- The state machine of check-dogfood.py -------------------------------------------

  /** What one step of the state machine writes. */
  function Blanked(state: State, text: string): string
    requires text != []
  {
    if text[0] == '\n' then "\n"
    else if InLiteral(state) && text[0] == '\\' then "  "
    else if state == Code && Next(state, text) == Code then text[..1]
    else if Width(state, text) == 2 then "  " else " "
  }

  function Blank(text: string, state: State): string
  {
    if text == [] then ""
    else Blanked(state, text) + Blank(text[Width(state, text)..], Next(state, text))
  }

  /** One turn of the loop: what is appended, how far `i` moves, and the new state. */
  method BlankTurn(text: string, i: nat, state: State) returns (piece: string, move: nat, next: State)
    requires i < |text|
    ensures piece == Blanked(state, text[i..]) && next == Next(state, text[i..])
    ensures move > 0 && Min(i + move, |text|) == i + Width(state, text[i..])
  {
    var c := text[i];
    ghost var tail := text[i..];
    assert i + 1 < |text| ==> tail[1] == text[i + 1];
    piece, move, next := " ", 1, state;
    if c == '\n' {
      piece := "\n";
      if state == LineComment {
        next := Code;
      }
    } else if state == Code {
      if c == '/' && i + 1 < |text| && text[i + 1] == '/' {
        piece, move, next := "  ", 2, LineComment;
      } else if c == '/' && i + 1 < |text| && text[i + 1] == '*' {
        piece, move, next := "  ", 2, BlockComment;
      } else if c == '"' {
        next := Str;
      } else if c == '\'' {
        next := Chr;
      } else {
        piece := [c];
      }
    } else if state == LineComment {
    } else if state == BlockComment {
      if c == '*' && i + 1 < |text| && text[i + 1] == '/' {
        piece, move, next := "  ", 2, Code;
      }
    } else if c == '\\' {
      piece, move := "  ", 2;
    } else if c == Quote(state) {
      next := Code;
    }
  }

  /** `blank_noncode`. */
  method BlankNoncode(text: string) returns (out: string)
    ensures out == Blank(text, Code)
  {
    out := [];
    var i: nat, state := 0, Code;
    while i < |text|
      invariant out + Blank(text[Min(i, |text|)..], state) == Blank(text, Code)
      decreases |text| - i
    {
      var piece, move, next := BlankTurn(text, i, state);
      BlankStep(text, i, state);
      Joined(out, piece, Blank(text[Min(i + move, |text|)..], next));
      out, i, state := out + piece, i + move, next;
    }
  }

  function Min(a: nat, b: nat): nat
  {
    if a <= b then a else b
  }

  lemma BlankStep(text: string, i: nat, state: State)
    requires i < |text|
    ensures var tail := text[i..];
      Blank(tail, state) == Blanked(state, tail) + Blank(text[i + Width(state, tail)..], Next(state, tail))
  {
    var tail := text[i..];
    assert tail[Width(state, tail)..] == text[i + Width(state, tail)..];
  }

  // --- Where the state machine goes wrong ------------------------------------------------

  /** The scanner is at a backslash in a literal. */
  predicate AtEscape(state: State, text: string)
  {
    text != [] && InLiteral(state) && text[0] == '\\'
  }

  /** How many line breaks the literals of the text escape. */
  function EscapedBreaks(text: string, state: State): nat
  {
    if text == [] then 0
    else
      (if AtEscape(state, text) && NextIs(text, '\n') then 1 else 0)
      + EscapedBreaks(text[Width(state, text)..], Next(state, text))
  }

  /** The text ends on a backslash inside a literal. */
  predicate EndsOnEscape(text: string, state: State)
  {
    text != [] &&
    ((AtEscape(state, text) && |text| == 1) || EndsOnEscape(text[Width(state, text)..], Next(state, text)))
  }

  function Breaks(text: string): nat
  {
    if text == [] then 0 else (if text[0] == '\n' then 1 else 0) + Breaks(text[1..])
  }

  lemma {:induction false} BreaksConcat(a: string, b: string)
    ensures Breaks(a + b) == Breaks(a) + Breaks(b)
  {
    if a == [] {
      assert a + b == b;
    } else {
      assert (a + b)[1..] == a[1..] + b;
      BreaksConcat(a[1..], b);
    }
  }

  lemma BreaksShort(text: string)
    requires |text| <= 2
    ensures Breaks(text) ==
      (if |text| > 0 && text[0] == '\n' then 1 else 0) + (if |text| > 1 && text[1] == '\n' then 1 else 0)
  {
    if |text| == 2 {
      assert text[1..][1..] == [];
    }
  }

  /** One step: what it writes, against what it reads. */
  lemma StepCounts(text: string, state: State)
    requires text != []
    ensures |Blanked(state, text)| ==
      Width(state, text) + if AtEscape(state, text) && |text| == 1 then 1 else 0
    ensures Breaks(Blanked(state, text)) + (if AtEscape(state, text) && NextIs(text, '\n') then 1 else 0)
      == Breaks(text[..Width(state, text)])
  {
    BreaksShort(Blanked(state, text));
    BreaksShort(text[..Width(state, text)]);
  }

  /**
    The state machine loses exactly the escaped line breaks, and gains one
    character exactly when the text ends on a backslash inside a literal.
   */
  lemma {:induction false} BlankCounts(text: string, state: State)
    ensures |Blank(text, state)| == |text| + if EndsOnEscape(text, state) then 1 else 0
    ensures Breaks(Blank(text, state)) + EscapedBreaks(text, state) == Breaks(text)
  {
    if text != [] {
      var w, next := Width(state, text), Next(state, text);
      BlankCounts(text[w..], next);
      StepCounts(text, state);
      BreaksConcat(Blanked(state, text), Blank(text[w..], next));
      BreaksConcat(text[..w], text[w..]);
      assert text == text[..w] + text[w..];
    }
  }

  lemma {:induction false} SameBreaks(a: string, b: string)
    requires |a| == |b| && forall k :: 0 <= k < |a| ==> (a[k] == '\n' <==> b[k] == '\n')
    ensures Breaks(a) == Breaks(b)
  {
    if a != [] {
      SameBreaks(a[1..], b[1..]);
    }
  }

  lemma {:induction false} BlankRenders(text: string, state: State)
    requires EscapedBreaks(text, state) == 0 && !EndsOnEscape(text, state)
    ensures Blank(text, state) == Render(text, state)
  {
    if text != [] {
      var w, next := Width(state, text), Next(state, text);
      BlankRenders(text[w..], next);
      assert Blanked(state, text) == if state == Code && next == Code then text[..w] else Spaces(text[..w]);
    }
  }

  /** The state machine is right exactly on texts without such escapes. */
  lemma BlankRendersIff(text: string, state: State)
    ensures Blank(text, state) == Render(text, state)
      <==> EscapedBreaks(text, state) == 0 && !EndsOnEscape(text, state)
  {
    BlankCounts(text, state);
    RenderKeepsLines(text, state);
    SameBreaks(Render(text, state), text);
    if EscapedBreaks(text, state) == 0 && !EndsOnEscape(text, state) {
      BlankRenders(text, state);
    }
  }

  // --- The jump scanner of check-test-registered.py -------------------------------------

  predicate ClosesBlock(text: string, i: nat)
  {
    i + 1 < |text| && text[i] == '*' && text[i + 1] == '/'
  }

  /** The end of the block comment that is open at `i`: past the next close, or the end of the text. */
  function BlockEnd(text: string, i: nat): (e: nat)
    requires i <= |text|
    ensures i <= e <= |text|
    decreases |text| - i
  {
    if i == |text| then i
    else if ClosesBlock(text, i) then i + 2
    else BlockEnd(text, i + 1)
  }

  /** The next line break, or the end of the text. */
  function LineEnd(text: string, i: nat): (e: nat)
    requires i <= |text|
    ensures i <= e <= |text|
    decreases |text| - i
  {
    if i == |text| || text[i] == '\n' then i else LineEnd(text, i + 1)
  }

  /** Where the loop over a literal's characters stops, `j` clipped to the text. */
  function LiteralEnd(text: string, quote: char, j: nat): (e: nat)
    requires j <= |text|
    ensures j <= e <= |text| && (j < |text| ==> j < e)
    decreases |text| - j
  {
    if j == |text| then j
    else if text[j] == quote then j + 1
    else if text[j] == '\\' then LiteralEnd(text, quote, Min(j + 2, |text|))
    else LiteralEnd(text, quote, j + 1)
  }

  /** What the jump scanner writes from position `i` on. */
  function Strip(text: string, i: nat): string
    requires i <= |text|
    decreases |text| - i
  {
    if i == |text| then ""
    else if text[i] == '/' && i + 1 < |text| && text[i + 1] == '*' then
      var e := BlockEnd(text, i + 2);
      Spaces(text[i..e]) + Strip(text, e)
    else if text[i] == '/' && i + 1 < |text| && text[i + 1] == '/' then
      var e := LineEnd(text, i + 2);
      Spaces(text[i..e]) + Strip(text, e)
    else if text[i] == '"' || text[i] == '\'' then
      var e := LiteralEnd(text, text[i], i + 1);
      Spaces(text[i..e]) + Strip(text, e)
    else [text[i]] + Strip(text, i + 1)
  }

  lemma SpacesJoin(text: string, i: nat, j: nat, e: nat)
    requires i <= j <= e <= |text|
    ensures Spaces(text[i..e]) == Spaces(text[i..j]) + Spaces(text[j..e])
  {
  }

  /** One step of rendering, by position. */
  lemma RenderStep(text: string, i: nat, state: State)
    requires i < |text|
    ensures var w, next := Width(state, text[i..]), Next(state, text[i..]);
      Render(text[i..], state) ==
      (if state == Code && next == Code then text[i..i + w] else Spaces(text[i..i + w])) + Render(text[i + w..], next)
  {
    var tail := text[i..];
    var w := Width(state, tail);
    assert tail[..w] == text[i..i + w] && tail[w..] == text[i + w..];
  }

  /** `r` starts with the spaces of `text[i..j]`, and what follows with those of `text[j..e]`. */
  lemma Glue(text: string, i: nat, j: nat, e: nat, r: string, mid: string, tail: string)
    requires i <= j <= e <= |text|
    requires r == Spaces(text[i..j]) + mid && mid == Spaces(text[j..e]) + tail
    ensures r == Spaces(text[i..e]) + tail
  {
    SpacesJoin(text, i, j, e);
  }

  lemma NothingLeft(text: string, state: State)
    ensures Render(text[|text|..], state) == Spaces(text[|text|..|text|]) + Render(text[|text|..], Code)
  {
  }

  lemma {:induction false} BlockRun(text: string, i: nat)
    requires i <= |text|
    ensures Render(text[i..], BlockComment) ==
      Spaces(text[i..BlockEnd(text, i)]) + Render(text[BlockEnd(text, i)..], Code)
    decreases |text| - i
  {
    if i == |text| {
      NothingLeft(text, BlockComment);
    } else {
      RenderStep(text, i, BlockComment);
      assert ClosesBlock(text, i) <==> text[i..][0] == '*' && NextIs(text[i..], '/');
      if !ClosesBlock(text, i) {
        BlockRun(text, i + 1);
        var e := BlockEnd(text, i + 1);
        Glue(text, i, i + 1, e, Render(text[i..], BlockComment), Render(text[i + 1..], BlockComment),
             Render(text[e..], Code));
      }
    }
  }

  lemma {:induction false} LineRun(text: string, i: nat)
    requires i <= |text|
    ensures Render(text[i..], LineComment) ==
      Spaces(text[i..LineEnd(text, i)]) + Render(text[LineEnd(text, i)..], Code)
    decreases |text| - i
  {
    if i == |text| {
      NothingLeft(text, LineComment);
    } else if text[i] == '\n' {
      RenderStep(text, i, LineComment);
      RenderStep(text, i, Code);
      assert Spaces(text[i..i + 1]) == text[i..i + 1];
    } else {
      RenderStep(text, i, LineComment);
      LineRun(text, i + 1);
      var e := LineEnd(text, i + 1);
      Glue(text, i, i + 1, e, Render(text[i..], LineComment), Render(text[i + 1..], LineComment),
           Render(text[e..], Code));
    }
  }

  /** One step inside a literal. */
  lemma LiteralStep(text: string, i: nat, state: State)
    requires i < |text| && InLiteral(state)
    ensures if text[i] == Quote(state)
      then Render(text[i..], state) == Spaces(text[i..i + 1]) + Render(text[i + 1..], Code)
      else var w := if text[i] == '\\' && i + 1 < |text| then 2 else 1;
           Render(text[i..], state) == Spaces(text[i..i + w]) + Render(text[i + w..], state)
  {
    RenderStep(text, i, state);
    assert text[i..][0] == text[i];
  }

  lemma {:induction false} LiteralRun(text: string, i: nat, state: State)
    requires i <= |text| && InLiteral(state)
    ensures var e := LiteralEnd(text, Quote(state), i);
      Render(text[i..], state) == Spaces(text[i..e]) + Render(text[e..], Code)
    decreases |text| - i
  {
    if i == |text| {
      NothingLeft(text, state);
    } else {
      LiteralStep(text, i, state);
      if text[i] != Quote(state) {
        var w := if text[i] == '\\' && i + 1 < |text| then 2 else 1;
        LiteralRun(text, i + w, state);
        var e := LiteralEnd(text, Quote(state), i + w);
        assert LiteralEnd(text, Quote(state), i) == e;
        Glue(text, i, i + w, e, Render(text[i..], state), Render(text[i + w..], state), Render(text[e..], Code));
      }
    }
  }

  /** The jump scanner renders every text. */
  lemma {:induction false} StripRenders(text: string, i: nat)
    requires i <= |text|
    ensures Strip(text, i) == Render(text[i..], Code)
    decreases |text| - i
  {
    if i < |text| {
      RenderStep(text, i, Code);
      var w, next := Width(Code, text[i..]), Next(Code, text[i..]);
      assert w == 1 ==> text[i..i + 1] == [text[i]];
      if next == Code {
        StripRenders(text, i + 1);
      } else {
        var e := RunEnd(text, i + w, next);
        StripOpens(text, i);
        RunRenders(text, i + w, next);
        StripRenders(text, e);
        Glue(text, i, i + w, e, Render(text[i..], Code), Render(text[i + w..], next), Render(text[e..], Code));
      }
    }
  }

  /** Where a comment or literal of state `next` ends, once it is open at `j`. */
  function RunEnd(text: string, j: nat, next: State): (e: nat)
    requires j <= |text|
    ensures j <= e <= |text|
  {
    match next
    case Code => j
    case LineComment => LineEnd(text, j)
    case BlockComment => BlockEnd(text, j)
    case _ => LiteralEnd(text, Quote(next), j)
  }

  lemma StripOpens(text: string, i: nat)
    requires i < |text| && Next(Code, text[i..]) != Code
    ensures var e := RunEnd(text, i + Width(Code, text[i..]), Next(Code, text[i..]));
      Strip(text, i) == Spaces(text[i..e]) + Strip(text, e)
  {
    var tail := text[i..];
    assert tail[0] == text[i] && (i + 1 < |text| ==> tail[1] == text[i + 1]);
  }

  lemma RunRenders(text: string, j: nat, next: State)
    requires j <= |text| && next != Code
    ensures var e := RunEnd(text, j, next);
      Render(text[j..], next) == Spaces(text[j..e]) + Render(text[e..], Code)
  {
    match next
    case LineComment => LineRun(text, j);
    case BlockComment => BlockRun(text, j);
    case Str => LiteralRun(text, j, Str);
    case Chr => LiteralRun(text, j, Chr);
  }

  /** `strip_noise`. */
  method StripNoise(text: string) returns (out: string)
    ensures out == Strip(text, 0)
  {
    out := [];
    var i, n := 0, |text|;
    while i < n
      invariant 0 <= i <= n
      invariant out + Strip(text, i) == Strip(text, 0)
    {
      var ch := text[i];
      var piece, end;
      if ch == '/' && i + 1 < n && text[i + 1] == '*' {
        end := BlockEnd(text, i + 2);
        piece := Spaces(text[i..end]);
      } else if ch == '/' && i + 1 < n && text[i + 1] == '/' {
        end := LineEnd(text, i + 2);
        piece := Spaces(text[i..end]);
      } else if ch == '"' || ch == '\'' {
        end := SkipLiteral(text, ch, i + 1);
        piece := Spaces(text[i..end]);
      } else {
        end := i + 1;
        piece := [ch];
      }
      assert Strip(text, i) == piece + Strip(text, end);
      Joined(out, piece, Strip(text, end));
      out, i := out + piece, end;
    }
  }

  /** The inner loop over a literal. */
  method SkipLiteral(text: string, quote: char, start: nat) returns (end: nat)
    requires start <= |text|
    ensures end == LiteralEnd(text, quote, start)
  {
    var j := start;
    while j < |text| && text[j] != quote
      invariant start <= j && LiteralEnd(text, quote, Min(j, |text|)) == LiteralEnd(text, quote, start)
      decreases |text| - j
    {
      j := j + if text[j] == '\\' then 2 else 1;
    }
    end := Min(j + 1, |text|);
  }

  // --- The two scanners ---------------------------------------------------------------

  /** On every text the jump scanner keeps the length and every line break, and adds only spaces. */
  lemma StripKeepsLines(text: string)
    ensures |Strip(text, 0)| == |text|
    ensures forall k :: 0 <= k < |text| ==> (Strip(text, 0)[k] == '\n' <==> text[k] == '\n')
    ensures forall k :: 0 <= k < |text| ==> Strip(text, 0)[k] == text[k] || Strip(text, 0)[k] == ' '
  {
    StripRenders(text, 0);
    assert text[0..] == text;
    RenderKeepsLines(text, Code);
  }

  /** The two scanners agree on a text if and only if no literal in it escapes a line break or the end. */
  lemma ScannersAgreeIff(text: string)
    ensures Blank(text, Code) == Strip(text, 0)
      <==> EscapedBreaks(text, Code) == 0 && !EndsOnEscape(text, Code)
  {
    StripRenders(text, 0);
    assert text[0..] == text;
    BlankRendersIff(text, Code);
  }

  /** The state machine keeps the length and the line breaks of a text under the same condition. */
  lemma BlankKeepsLinesIff(text: string)
    ensures EscapedBreaks(text, Code) == 0 && !EndsOnEscape(text, Code)
      <==> && |Blank(text, Code)| == |text|
           && forall k :: 0 <= k < |text| ==> (Blank(text, Code)[k] == '\n' <==> text[k] == '\n')
  {
    BlankCounts(text, Code);
    if EscapedBreaks(text, Code) == 0 && !EndsOnEscape(text, Code) {
      BlankRenders(text, Code);
      RenderKeepsLines(text, Code);
    } else if |Blank(text, Code)| == |text|
      && forall k :: 0 <= k < |text| ==> (Blank(text, Code)[k] == '\n' <==> text[k] == '\n') {
      SameBreaks(Blank(text, Code), text);
    }
  }

  /** A continued string literal loses its line break, so later line numbers are one too small. */
  lemma BlankLosesALine()
    ensures var text := "\"\\\n\"\n"; Breaks(text) == 2 && Breaks(Blank(text, Code)) == 1
  {
    var text := "\"\\\n\"\n";
    assert text[1..] == "\\\n\"\n";
    assert "\\\n\"\n"[1..] == "\n\"\n";
    assert "\n\"\n"[1..] == "\"\n";
    assert "\"\n"[1..] == "\n";
    assert "\n"[1..] == "";
    assert Breaks("\\\n\"\n") == 2;
    assert "\\\n\"\n"[2..] == "\"\n";
    assert EscapedBreaks("\n", Code) == 0;
    assert EscapedBreaks("\"\n", Str) == 0;
    assert EscapedBreaks("\\\n\"\n", Str) == 1;
    assert EscapedBreaks(text, Code) == 1;
    BlankCounts(text, Code);
  }
}
