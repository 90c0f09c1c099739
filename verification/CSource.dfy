/**
  C text as its parts: code, comments and literals, what they look like, and
  what the scanners of scripts/check-test-registered.py,
  scripts/check-dogfood.py and scripts/check-output-ascii.py make of them.
 */
module CSource {
  import opened CLexer
  import opened Sequences
  import opened AsciiFix
  import Blanking

  /** One character of a literal, or two: a backslash and what it escapes. */
  datatype Atom = One(c: char) | Escaped(c: char)

  /** A text, part by part; a comment or literal may be left open at the end. */
  datatype Source =
    | Done
    | Letter(c: char, rest: Source)
    | Remark(body: string, rest: Source)
    | OpenRemark(body: string)
    | Block(body: string, rest: Source)
    | OpenBlock(body: string)
    | Quoted(quote: char, atoms: seq<Atom>, rest: Source)
    | OpenQuote(quote: char, atoms: seq<Atom>, dangling: bool)

  function SpellAtoms(atoms: seq<Atom>): string
  {
    if atoms == [] then ""
    else (if atoms[0].One? then [atoms[0].c] else ['\\', atoms[0].c]) + SpellAtoms(atoms[1..])
  }

  function Spell(src: Source): string
  {
    match src
    case Done => ""
    case Letter(c, rest) => [c] + Spell(rest)
    case Remark(body, rest) => "//" + (body + ("\n" + Spell(rest)))
    case OpenRemark(body) => "//" + body
    case Block(body, rest) => "/*" + (body + ("*/" + Spell(rest)))
    case OpenBlock(body) => "/*" + body
    case Quoted(quote, atoms, rest) => [quote] + (SpellAtoms(atoms) + ([quote] + Spell(rest)))
    case OpenQuote(quote, atoms, dangling) => [quote] + (SpellAtoms(atoms) + if dangling then "\\" else "")
  }

  ghost predicate NoBreak(body: string)
  {
    forall k :: 0 <= k < |body| ==> body[k] != '\n'
  }

  ghost predicate NoClose(body: string)
  {
    forall k :: 0 <= k < |body| - 1 ==> body[k] != '*' || body[k + 1] != '/'
  }

  ghost predicate AtomsOk(quote: char, atoms: seq<Atom>)
  {
    forall k :: 0 <= k < |atoms| && atoms[k].One? ==> atoms[k].c != quote && atoms[k].c != '\\'
  }

  predicate IsQuote(c: char)
  {
    c == '"' || c == '\''
  }

  /** Code holds no quote and no two characters that open a comment; each part ends where it should. */
  ghost predicate SourceOk(src: Source)
  {
    match src
    case Done => true
    case Letter(c, rest) =>
      && !IsQuote(c) && SourceOk(rest)
      && (c == '/' && Spell(rest) != "" ==> Spell(rest)[0] != '/' && Spell(rest)[0] != '*')
    case Remark(body, rest) => NoBreak(body) && SourceOk(rest)
    case OpenRemark(body) => NoBreak(body)
    case Block(body, rest) => NoClose(body) && SourceOk(rest)
    case OpenBlock(body) => NoClose(body)
    case Quoted(quote, atoms, rest) => IsQuote(quote) && AtomsOk(quote, atoms) && SourceOk(rest)
    case OpenQuote(quote, atoms, _) => IsQuote(quote) && AtomsOk(quote, atoms)
  }

  // --- The automaton goes through the parts ------------------------------------------

  function StateOf(quote: char): State
  {
    if quote == '"' then Str else Chr
  }

  function AtomTokens(state: State, atoms: seq<Atom>, rest: Lexed): Lexed
  {
    if atoms == [] then rest
    else Token(state, if atoms[0].One? then [atoms[0].c] else ['\\', atoms[0].c], AtomTokens(state, atoms[1..], rest))
  }

  function Tokens(src: Source): Lexed
  {
    match src
    case Done => End(Code)
    case Letter(c, rest) => Token(Code, [c], Tokens(rest))
    case Remark(body, rest) => Token(Code, "//", Spread(LineComment, body, Token(LineComment, "\n", Tokens(rest))))
    case OpenRemark(body) => Token(Code, "//", Spread(LineComment, body, End(LineComment)))
    case Block(body, rest) => Token(Code, "/*", Spread(BlockComment, body, Token(BlockComment, "*/", Tokens(rest))))
    case OpenBlock(body) => Token(Code, "/*", Spread(BlockComment, body, End(BlockComment)))
    case Quoted(quote, atoms, rest) =>
      Token(Code, [quote], AtomTokens(StateOf(quote), atoms, Token(StateOf(quote), [quote], Tokens(rest))))
    case OpenQuote(quote, atoms, dangling) =>
      var end := End(StateOf(quote));
      Token(Code, [quote], AtomTokens(StateOf(quote), atoms, if dangling then Token(StateOf(quote), "\\", end) else end))
  }

  /** A step that takes `lexeme` off the front. */
  lemma LexFront(lexeme: string, rest: string, state: State, next: State)
    requires lexeme != [] && Width(state, lexeme + rest) == |lexeme| && Next(state, lexeme + rest) == next
    ensures Lex(lexeme + rest, state) == Token(state, lexeme, Lex(rest, next))
  {
    var text := lexeme + rest;
    assert text[..|lexeme|] == lexeme && text[|lexeme|..] == rest;
  }

  lemma {:induction false} LexRemark(body: string, tail: string)
    requires NoBreak(body)
    ensures Lex(body + tail, LineComment) == Spread(LineComment, body, Lex(tail, LineComment))
  {
    if body == [] {
      assert body + tail == tail;
    } else {
      LexRemark(body[1..], tail);
      assert body + tail == body[..1] + (body[1..] + tail);
      LexFront(body[..1], body[1..] + tail, LineComment, LineComment);
    }
  }

  lemma {:induction false} LexBlock(body: string, tail: string)
    requires NoClose(body) && (body != [] && tail != [] ==> tail[0] != '/')
    ensures Lex(body + tail, BlockComment) == Spread(BlockComment, body, Lex(tail, BlockComment))
  {
    if body == [] {
      assert body + tail == tail;
    } else {
      LexBlock(body[1..], tail);
      assert body + tail == body[..1] + (body[1..] + tail);
      assert !NextIs(body + tail, '/') || body[0] != '*';
      LexFront(body[..1], body[1..] + tail, BlockComment, BlockComment);
    }
  }

  lemma {:induction false} LexAtoms(quote: char, atoms: seq<Atom>, tail: string)
    requires IsQuote(quote) && AtomsOk(quote, atoms)
    ensures Lex(SpellAtoms(atoms) + tail, StateOf(quote)) == AtomTokens(StateOf(quote), atoms, Lex(tail, StateOf(quote)))
  {
    if atoms == [] {
      assert SpellAtoms(atoms) + tail == tail;
    } else {
      var lexeme := if atoms[0].One? then [atoms[0].c] else ['\\', atoms[0].c];
      var rest := SpellAtoms(atoms[1..]) + tail;
      LexAtoms(quote, atoms[1..], tail);
      assert SpellAtoms(atoms) + tail == lexeme + rest;
      LexFront(lexeme, rest, StateOf(quote), StateOf(quote));
    }
  }

  lemma OpensComment(second: char, rest: string)
    requires second == '/' || second == '*'
    ensures Lex(['/', second] + rest, Code) == Token(Code, ['/', second], Lex(rest, if second == '/' then LineComment else BlockComment))
  {
    LexFront(['/', second], rest, Code, if second == '/' then LineComment else BlockComment);
  }

  /** The automaton reads every text part by part. */
  lemma {:induction false} LexReadsParts(src: Source)
    requires SourceOk(src)
    ensures Lex(Spell(src), Code) == Tokens(src)
  {
    match src
    case Done =>
    case Letter(c, rest) =>
      LexReadsParts(rest);
      LexFront([c], Spell(rest), Code, Code);
    case Remark(body, rest) =>
      LexReadsParts(rest);
      OpensComment('/', body + ("\n" + Spell(rest)));
      LexRemark(body, "\n" + Spell(rest));
      LexFront("\n", Spell(rest), LineComment, Code);
    case OpenRemark(body) =>
      OpensComment('/', body);
      LexRemark(body, "");
      assert body + "" == body;
    case Block(body, rest) =>
      LexReadsParts(rest);
      OpensComment('*', body + ("*/" + Spell(rest)));
      LexBlock(body, "*/" + Spell(rest));
      LexFront("*/", Spell(rest), BlockComment, Code);
    case OpenBlock(body) =>
      OpensComment('*', body);
      LexBlock(body, "");
      assert body + "" == body;
    case Quoted(quote, atoms, rest) =>
      LexReadsParts(rest);
      LexFront([quote], SpellAtoms(atoms) + ([quote] + Spell(rest)), Code, StateOf(quote));
      LexAtoms(quote, atoms, [quote] + Spell(rest));
      LexFront([quote], Spell(rest), StateOf(quote), Code);
    case OpenQuote(quote, atoms, dangling) =>
      var tail := if dangling then "\\" else "";
      LexFront([quote], SpellAtoms(atoms) + tail, Code, StateOf(quote));
      LexAtoms(quote, atoms, tail);
      if dangling {
        assert "\\" + "" == "\\";
        LexFront("\\", "", StateOf(quote), StateOf(quote));
      }
  }

  // --- Every text has parts --------------------------------------------------------------

  lemma {:induction false} SplitRemark(text: string) returns (body: string, rest: string, closed: bool)
    ensures NoBreak(body) && text == if closed then body + ("\n" + rest) else body
    ensures closed ==> |rest| < |text|
  {
    if text == [] {
      body, rest, closed := "", "", false;
    } else if text[0] == '\n' {
      body, rest, closed := "", text[1..], true;
    } else {
      var more;
      more, rest, closed := SplitRemark(text[1..]);
      body := [text[0]] + more;
      assert text == [text[0]] + text[1..];
    }
  }

  lemma {:induction false} SplitBlock(text: string) returns (body: string, rest: string, closed: bool)
    ensures NoClose(body) && text == if closed then body + ("*/" + rest) else body
    ensures closed ==> |rest| < |text|
  {
    if text == [] {
      body, rest, closed := "", "", false;
    } else if text[0] == '*' && NextIs(text, '/') {
      body, rest, closed := "", text[2..], true;
    } else {
      var more;
      more, rest, closed := SplitBlock(text[1..]);
      body := [text[0]] + more;
      assert text == [text[0]] + text[1..];
      assert more != [] ==> more[0] == text[1];
    }
  }

  lemma {:induction false} SplitQuote(quote: char, text: string)
    returns (atoms: seq<Atom>, rest: string, closed: bool, dangling: bool)
    requires IsQuote(quote)
    ensures AtomsOk(quote, atoms) && |rest| <= |text|
    ensures text == SpellAtoms(atoms) + if closed then [quote] + rest else if dangling then "\\" else ""
    decreases |text|
  {
    atoms, rest, closed, dangling := [], "", false, false;
    if text != [] && text[0] == quote {
      rest, closed := text[1..], true;
    } else if text != [] && text[0] == '\\' && |text| == 1 {
      dangling := true;
    } else if text != [] {
      var first := if text[0] == '\\' then Escaped(text[1]) else One(text[0]);
      var front := if text[0] == '\\' then ['\\', text[1]] else [text[0]];
      var more;
      more, rest, closed, dangling := SplitQuote(quote, text[|front|..]);
      atoms := [first] + more;
      assert text == front + text[|front|..];
      assert SpellAtoms(atoms) == front + SpellAtoms(more) by {
        assert atoms[1..] == more;
      }
    }
  }

  /** So what is said of texts with parts is said of every text. */
  lemma {:induction false} EveryTextHasParts(text: string) returns (src: Source)
    ensures SourceOk(src) && Spell(src) == text
    decreases |text|
  {
    if text == [] {
      src := Done;
    } else if text[0] == '/' && NextIs(text, '/') {
      src := RemarkHasParts(text);
    } else if text[0] == '/' && NextIs(text, '*') {
      src := BlockHasParts(text);
    } else if IsQuote(text[0]) {
      src := QuoteHasParts(text);
    } else {
      var rest := EveryTextHasParts(text[1..]);
      src := Letter(text[0], rest);
      assert text == [text[0]] + text[1..];
    }
  }

  lemma {:induction false} RemarkHasParts(text: string) returns (src: Source)
    requires |text| > 1 && text[0] == '/' && text[1] == '/'
    ensures SourceOk(src) && Spell(src) == text
    decreases |text|, 0
  {
    var body, rest, closed := SplitRemark(text[2..]);
    assert text == "//" + text[2..];
    if closed {
      var more := EveryTextHasParts(rest);
      src := Remark(body, more);
    } else {
      src := OpenRemark(body);
    }
  }

  lemma {:induction false} BlockHasParts(text: string) returns (src: Source)
    requires |text| > 1 && text[0] == '/' && text[1] == '*'
    ensures SourceOk(src) && Spell(src) == text
    decreases |text|, 0
  {
    var body, rest, closed := SplitBlock(text[2..]);
    assert text == "/*" + text[2..];
    if closed {
      var more := EveryTextHasParts(rest);
      src := Block(body, more);
    } else {
      src := OpenBlock(body);
    }
  }

  lemma {:induction false} QuoteHasParts(text: string) returns (src: Source)
    requires text != [] && IsQuote(text[0])
    ensures SourceOk(src) && Spell(src) == text
    decreases |text|, 0
  {
    var atoms, rest, closed, dangling := SplitQuote(text[0], text[1..]);
    assert text == [text[0]] + text[1..];
    if closed {
      var more := EveryTextHasParts(rest);
      src := Quoted(text[0], atoms, more);
    } else {
      src := OpenQuote(text[0], atoms, dangling);
    }
  }

  // --- Blanking ------------------------------------------------------------------------------

  /** Spaces, but for line breaks. */
  function Blanks(text: string): string
  {
    seq(|text|, k requires 0 <= k < |text| => if text[k] == '\n' then '\n' else ' ')
  }

  /** What blanking should leave: the code, and spaces and line breaks for the rest. */
  function Shown(src: Source): string
  {
    match src
    case Done => ""
    case Letter(c, rest) => [c] + Shown(rest)
    case Remark(body, rest) => "  " + (Blanks(body) + ("\n" + Shown(rest)))
    case OpenRemark(body) => "  " + Blanks(body)
    case Block(body, rest) => "  " + (Blanks(body) + ("  " + Shown(rest)))
    case OpenBlock(body) => "  " + Blanks(body)
    case Quoted(_, atoms, rest) => " " + (Blanks(SpellAtoms(atoms)) + (" " + Shown(rest)))
    case OpenQuote(_, atoms, dangling) => " " + (Blanks(SpellAtoms(atoms)) + if dangling then " " else "")
  }

  function RenderTokens(tokens: Lexed): string
  {
    match tokens
    case End(_) => ""
    case Token(state, lexeme, rest) =>
      (if state == Code && HeadState(rest) == Code then lexeme else Blanks(lexeme)) + RenderTokens(rest)
  }

  lemma {:induction false} RenderIsOfTokens(text: string, state: State)
    ensures Blanking.Render(text, state) == RenderTokens(Lex(text, state))
    decreases |text|
  {
    if text != [] {
      var w := Width(state, text);
      RenderIsOfTokens(text[w..], Next(state, text));
      assert Blanking.Spaces(text[..w]) == Blanks(text[..w]);
    }
  }

  lemma {:induction false} SpreadRenders(state: State, piece: string, rest: Lexed)
    requires state != Code
    ensures RenderTokens(Spread(state, piece, rest)) == Blanks(piece) + RenderTokens(rest)
  {
    if piece == [] {
      assert Blanks(piece) + RenderTokens(rest) == RenderTokens(rest);
    } else {
      SpreadRenders(state, piece[1..], rest);
      assert Blanks(piece) == Blanks(piece[..1]) + Blanks(piece[1..]);
      Joined(Blanks(piece[..1]), Blanks(piece[1..]), RenderTokens(rest));
    }
  }

  lemma BlanksJoin(a: string, b: string)
    ensures Blanks(a + b) == Blanks(a) + Blanks(b)
  {
  }

  lemma {:induction false} AtomsRender(state: State, atoms: seq<Atom>, rest: Lexed)
    requires state != Code
    ensures RenderTokens(AtomTokens(state, atoms, rest)) == Blanks(SpellAtoms(atoms)) + RenderTokens(rest)
  {
    if atoms == [] {
      assert Blanks(SpellAtoms(atoms)) + RenderTokens(rest) == RenderTokens(rest);
    } else {
      AtomsRender(state, atoms[1..], rest);
      var lexeme := if atoms[0].One? then [atoms[0].c] else ['\\', atoms[0].c];
      BlanksJoin(lexeme, SpellAtoms(atoms[1..]));
      Joined(Blanks(lexeme), Blanks(SpellAtoms(atoms[1..])), RenderTokens(rest));
    }
  }

  lemma TokensStart(src: Source)
    ensures HeadState(Tokens(src)) == Code
  {
  }

  lemma SpreadStarts(state: State, piece: string, rest: Lexed)
    requires HeadState(rest) == state
    ensures HeadState(Spread(state, piece, rest)) == state
  {
  }

  lemma AtomsStart(state: State, atoms: seq<Atom>, rest: Lexed)
    requires HeadState(rest) == state
    ensures HeadState(AtomTokens(state, atoms, rest)) == state
  {
  }

  lemma ClosingShows(state: State, lexeme: string, rest: Lexed, shown: string)
    requires state != Code && RenderTokens(rest) == shown
    ensures RenderTokens(Token(state, lexeme, rest)) == Blanks(lexeme) + shown
    ensures Blanks("\n") == "\n" && Blanks("*/") == "  " && (|lexeme| == 1 && lexeme != "\n" ==> Blanks(lexeme) == " ")
  {
    assert |lexeme| == 1 && lexeme != "\n" ==> lexeme[0] != '\n';
  }

  lemma {:induction false} TokensShow(src: Source)
    requires SourceOk(src)
    ensures RenderTokens(Tokens(src)) == Shown(src)
  {
    match src
    case Done =>
    case Letter(c, rest) =>
      TokensShow(rest);
      TokensStart(rest);
    case Remark(body, rest) =>
      TokensShow(rest);
      ClosingShows(LineComment, "\n", Tokens(rest), Shown(rest));
      CommentShows("//", LineComment, body, Token(LineComment, "\n", Tokens(rest)), "\n" + Shown(rest));
    case OpenRemark(body) =>
      CommentShows("//", LineComment, body, End(LineComment), "");
      assert Blanks(body) + "" == Blanks(body);
    case Block(body, rest) =>
      TokensShow(rest);
      ClosingShows(BlockComment, "*/", Tokens(rest), Shown(rest));
      CommentShows("/*", BlockComment, body, Token(BlockComment, "*/", Tokens(rest)), "  " + Shown(rest));
    case OpenBlock(body) =>
      CommentShows("/*", BlockComment, body, End(BlockComment), "");
      assert Blanks(body) + "" == Blanks(body);
    case Quoted(quote, atoms, rest) =>
      TokensShow(rest);
      ClosingShows(StateOf(quote), [quote], Tokens(rest), Shown(rest));
      LiteralShows(quote, atoms, Token(StateOf(quote), [quote], Tokens(rest)), " " + Shown(rest));
    case OpenQuote(quote, atoms, dangling) =>
      var end := End(StateOf(quote));
      if dangling {
        ClosingShows(StateOf(quote), "\\", end, "");
        assert " " + "" == " ";
      }
      LiteralShows(quote, atoms, if dangling then Token(StateOf(quote), "\\", end) else end, if dangling then " " else "");
  }

  lemma CommentShows(open: string, state: State, body: string, rest: Lexed, shown: string)
    requires open == "//" || open == "/*"
    requires state != Code && HeadState(rest) == state && RenderTokens(rest) == shown
    ensures RenderTokens(Token(Code, open, Spread(state, body, rest))) == "  " + (Blanks(body) + shown)
  {
    SpreadStarts(state, body, rest);
    SpreadRenders(state, body, rest);
    assert Blanks(open) == "  ";
  }

  lemma LiteralShows(quote: char, atoms: seq<Atom>, rest: Lexed, shown: string)
    requires IsQuote(quote) && HeadState(rest) == StateOf(quote) && RenderTokens(rest) == shown
    ensures RenderTokens(Token(Code, [quote], AtomTokens(StateOf(quote), atoms, rest))) == " " + (Blanks(SpellAtoms(atoms)) + shown)
  {
    AtomsStart(StateOf(quote), atoms, rest);
    AtomsRender(StateOf(quote), atoms, rest);
    assert Blanks([quote]) == " ";
  }

  /** The jump scanner shows exactly the code of every text. */
  lemma StripShows(src: Source)
    requires SourceOk(src)
    ensures Blanking.Strip(Spell(src), 0) == Shown(src)
  {
    LexReadsParts(src);
    RenderIsOfTokens(Spell(src), Code);
    TokensShow(src);
    Blanking.StripRenders(Spell(src), 0);
    assert Spell(src)[0..] == Spell(src);
  }

  // The state machine differs in the literals: an escape is always two spaces.

  function AtomBlanks(atoms: seq<Atom>): string
  {
    if atoms == [] then ""
    else (if atoms[0].Escaped? then "  " else if atoms[0].c == '\n' then "\n" else " ") + AtomBlanks(atoms[1..])
  }

  function ShownByMachine(src: Source): string
  {
    match src
    case Done => ""
    case Letter(c, rest) => [c] + ShownByMachine(rest)
    case Remark(body, rest) => "  " + (Blanks(body) + ("\n" + ShownByMachine(rest)))
    case OpenRemark(body) => "  " + Blanks(body)
    case Block(body, rest) => "  " + (Blanks(body) + ("  " + ShownByMachine(rest)))
    case OpenBlock(body) => "  " + Blanks(body)
    case Quoted(_, atoms, rest) => " " + (AtomBlanks(atoms) + (" " + ShownByMachine(rest)))
    case OpenQuote(_, atoms, dangling) => " " + (AtomBlanks(atoms) + if dangling then "  " else "")
  }

  function BlankToken(state: State, lexeme: string, next: State): string
  {
    if lexeme == [] then ""
    else if lexeme[0] == '\n' then "\n"
    else if InLiteral(state) && lexeme[0] == '\\' then "  "
    else if state == Code && next == Code then lexeme[..1]
    else if |lexeme| == 2 then "  " else " "
  }

  function BlankTokens(tokens: Lexed): string
  {
    match tokens
    case End(_) => ""
    case Token(state, lexeme, rest) => BlankToken(state, lexeme, HeadState(rest)) + BlankTokens(rest)
  }

  lemma {:induction false} BlankIsOfTokens(text: string, state: State)
    ensures Blanking.Blank(text, state) == BlankTokens(Lex(text, state))
    decreases |text|
  {
    if text != [] {
      var w := Width(state, text);
      BlankIsOfTokens(text[w..], Next(state, text));
      assert text[..w][0] == text[0];
      assert text[..w][..1] == text[..1];
    }
  }

  lemma {:induction false} SpreadBlanks(state: State, piece: string, rest: Lexed)
    requires state != Code && !InLiteral(state)
    ensures BlankTokens(Spread(state, piece, rest)) == Blanks(piece) + BlankTokens(rest)
  {
    if piece == [] {
      assert Blanks(piece) + BlankTokens(rest) == BlankTokens(rest);
    } else {
      SpreadBlanks(state, piece[1..], rest);
      assert Blanks(piece) == Blanks(piece[..1]) + Blanks(piece[1..]);
      Joined(Blanks(piece[..1]), Blanks(piece[1..]), BlankTokens(rest));
    }
  }

  lemma {:induction false} AtomsBlank(quote: char, atoms: seq<Atom>, rest: Lexed)
    requires AtomsOk(quote, atoms)
    ensures BlankTokens(AtomTokens(StateOf(quote), atoms, rest)) == AtomBlanks(atoms) + BlankTokens(rest)
  {
    if atoms == [] {
      assert AtomBlanks(atoms) + BlankTokens(rest) == BlankTokens(rest);
    } else {
      AtomsBlank(quote, atoms[1..], rest);
      var first := if atoms[0].Escaped? then "  " else if atoms[0].c == '\n' then "\n" else " ";
      Joined(first, AtomBlanks(atoms[1..]), BlankTokens(rest));
    }
  }

  lemma CommentBlanks(open: string, state: State, body: string, rest: Lexed, shown: string)
    requires open == "//" || open == "/*"
    requires state != Code && !InLiteral(state) && HeadState(rest) == state && BlankTokens(rest) == shown
    ensures BlankTokens(Token(Code, open, Spread(state, body, rest))) == "  " + (Blanks(body) + shown)
  {
    SpreadStarts(state, body, rest);
    SpreadBlanks(state, body, rest);
  }

  lemma LiteralBlanks(quote: char, atoms: seq<Atom>, rest: Lexed, shown: string)
    requires IsQuote(quote) && AtomsOk(quote, atoms) && HeadState(rest) == StateOf(quote) && BlankTokens(rest) == shown
    ensures BlankTokens(Token(Code, [quote], AtomTokens(StateOf(quote), atoms, rest))) == " " + (AtomBlanks(atoms) + shown)
  {
    AtomsStart(StateOf(quote), atoms, rest);
    AtomsBlank(quote, atoms, rest);
  }

  lemma {:induction false} TokensBlank(src: Source)
    requires SourceOk(src)
    ensures BlankTokens(Tokens(src)) == ShownByMachine(src)
  {
    match src
    case Done =>
    case Letter(c, rest) =>
      TokensBlank(rest);
      TokensStart(rest);
    case Remark(body, rest) =>
      TokensBlank(rest);
      CommentBlanks("//", LineComment, body, Token(LineComment, "\n", Tokens(rest)), "\n" + ShownByMachine(rest));
    case OpenRemark(body) =>
      CommentBlanks("//", LineComment, body, End(LineComment), "");
      assert Blanks(body) + "" == Blanks(body);
    case Block(body, rest) =>
      TokensBlank(rest);
      CommentBlanks("/*", BlockComment, body, Token(BlockComment, "*/", Tokens(rest)), "  " + ShownByMachine(rest));
    case OpenBlock(body) =>
      CommentBlanks("/*", BlockComment, body, End(BlockComment), "");
      assert Blanks(body) + "" == Blanks(body);
    case Quoted(quote, atoms, rest) =>
      TokensBlank(rest);
      LiteralBlanks(quote, atoms, Token(StateOf(quote), [quote], Tokens(rest)), " " + ShownByMachine(rest));
    case OpenQuote(quote, atoms, dangling) =>
      var end := End(StateOf(quote));
      LiteralBlanks(quote, atoms, if dangling then Token(StateOf(quote), "\\", end) else end, if dangling then "  " else "");
  }

  /** What the state machine shows of every text. */
  lemma BlankShows(src: Source)
    requires SourceOk(src)
    ensures Blanking.Blank(Spell(src), Code) == ShownByMachine(src)
  {
    LexReadsParts(src);
    BlankIsOfTokens(Spell(src), Code);
    TokensBlank(src);
  }

  // --- Glyphs --------------------------------------------------------------------------------

  /** The non-ASCII characters of a literal that no backslash escapes. */
  function AtomGlyphs(atoms: seq<Atom>): seq<char>
  {
    if atoms == [] then []
    else (if atoms[0].One? && atoms[0].c >= '\U{80}' then [atoms[0].c] else []) + AtomGlyphs(atoms[1..])
  }

  function Glyphs(src: Source): seq<char>
  {
    match src
    case Letter(_, rest) => Glyphs(rest)
    case Remark(_, rest) => Glyphs(rest)
    case Block(_, rest) => Glyphs(rest)
    case Quoted(_, atoms, rest) => AtomGlyphs(atoms) + Glyphs(rest)
    case OpenQuote(_, atoms, _) => AtomGlyphs(atoms)
    case _ => []
  }

  function Whats(findings: seq<Finding>): seq<char>
  {
    seq(|findings|, k requires 0 <= k < |findings| => findings[k].what)
  }

  lemma {:induction false} SpreadHasNone(state: State, piece: string, rest: Lexed, line: nat) returns (line': nat)
    requires !InLiteral(state)
    ensures Findings(Spread(state, piece, rest), line) == Findings(rest, line')
  {
    line' := line;
    if piece != [] {
      line' := SpreadHasNone(state, piece[1..], rest, LineAfter(piece[..1], line));
    }
  }

  lemma {:induction false} AtomsHave(quote: char, atoms: seq<Atom>, rest: Lexed, line: nat) returns (line': nat)
    ensures Whats(Findings(AtomTokens(StateOf(quote), atoms, rest), line)) == AtomGlyphs(atoms) + Whats(Findings(rest, line'))
  {
    line' := line;
    if atoms == [] {
      assert AtomGlyphs(atoms) + Whats(Findings(rest, line)) == Whats(Findings(rest, line));
    } else {
      var lexeme := if atoms[0].One? then [atoms[0].c] else ['\\', atoms[0].c];
      line' := AtomsHave(quote, atoms[1..], rest, LineAfter(lexeme, line));
      AtomHas(StateOf(quote), atoms[0], AtomTokens(StateOf(quote), atoms[1..], rest), line);
      Joined(if atoms[0].One? && atoms[0].c >= '\U{80}' then [atoms[0].c] else [], AtomGlyphs(atoms[1..]), Whats(Findings(rest, line')));
    }
  }

  lemma AtomHas(state: State, atom: Atom, rest: Lexed, line: nat)
    requires InLiteral(state)
    ensures var lexeme := if atom.One? then [atom.c] else ['\\', atom.c];
      Whats(Findings(Token(state, lexeme, rest), line))
      == (if atom.One? && atom.c >= '\U{80}' then [atom.c] else []) + Whats(Findings(rest, LineAfter(lexeme, line)))
  {
  }

  lemma Unreported(state: State, lexeme: string, rest: Lexed, line: nat)
    requires |lexeme| == 1 && !Reported(state, lexeme) && lexeme != "\n"
    ensures Findings(Token(state, lexeme, rest), line) == Findings(rest, line)
  {
  }

  lemma {:induction false} TokensHave(src: Source, line: nat)
    requires SourceOk(src)
    ensures Whats(Findings(Tokens(src), line)) == Glyphs(src)
    decreases src
  {
    match src
    case Done =>
    case Letter(c, rest) => TokensHave(rest, LineAfter([c], line));
    case Remark(body, rest) =>
      var line' := SpreadHasNone(LineComment, body, Token(LineComment, "\n", Tokens(rest)), line);
      TokensHave(rest, line' + 1);
    case OpenRemark(body) =>
      var line' := SpreadHasNone(LineComment, body, End(LineComment), line);
    case Block(body, rest) =>
      var line' := SpreadHasNone(BlockComment, body, Token(BlockComment, "*/", Tokens(rest)), line);
      TokensHave(rest, line');
    case OpenBlock(body) =>
      var line' := SpreadHasNone(BlockComment, body, End(BlockComment), line);
    case Quoted(quote, atoms, rest) =>
      var line' := AtomsHave(quote, atoms, Token(StateOf(quote), [quote], Tokens(rest)), line);
      TokensHave(rest, line');
      Unreported(StateOf(quote), [quote], Tokens(rest), line');
      Unreported(Code, [quote], AtomTokens(StateOf(quote), atoms, Token(StateOf(quote), [quote], Tokens(rest))), line);
    case OpenQuote(quote, atoms, dangling) =>
      var end := End(StateOf(quote));
      var last := if dangling then Token(StateOf(quote), "\\", end) else end;
      var line' := AtomsHave(quote, atoms, last, line);
      Unreported(Code, [quote], AtomTokens(StateOf(quote), atoms, last), line);
      assert Findings(last, line') == [];
      assert AtomGlyphs(atoms) + [] == AtomGlyphs(atoms);
  }

  /** The scan of every text reports exactly the non-ASCII characters of its literals, in order. */
  lemma ScanFinds(src: Source)
    requires SourceOk(src)
    ensures Whats(Scan(Spell(src))) == Glyphs(src)
  {
    LexReadsParts(src);
    TokensHave(src, 1);
  }

  // --- Replacements ----------------------------------------------------------------------------

  /** The ASCII spelling of dashes, arrows, the ellipsis and curly quotes. */
  function Swap(c: char): string
  {
    match c
    case '\U{2014}' => "-"
    case '\U{2013}' => "-"
    case '\U{2192}' => "->"
    case '\U{2190}' => "<-"
    case '\U{2026}' => "..."
    case '\U{2018}' => "'"
    case '\U{2019}' => "'"
    case _ => [c]
  }

  lemma SwapIsAscii(c: char)
    ensures Swap(c) == if Mapped(c) then Ascii(c) else [c]
    ensures Mapped(c) ==> NonAscii(c)
  {
  }

  function SwapAtoms(atoms: seq<Atom>): string
  {
    if atoms == [] then ""
    else (if atoms[0].One? then Swap(atoms[0].c) else ['\\', atoms[0].c]) + SwapAtoms(atoms[1..])
  }

  /** The text with the characters of its literals replaced, and nothing else. */
  function Swapped(src: Source): string
  {
    match src
    case Done => ""
    case Letter(c, rest) => [c] + Swapped(rest)
    case Remark(body, rest) => "//" + (body + ("\n" + Swapped(rest)))
    case OpenRemark(body) => "//" + body
    case Block(body, rest) => "/*" + (body + ("*/" + Swapped(rest)))
    case OpenBlock(body) => "/*" + body
    case Quoted(quote, atoms, rest) => [quote] + (SwapAtoms(atoms) + ([quote] + Swapped(rest)))
    case OpenQuote(quote, atoms, dangling) => [quote] + (SwapAtoms(atoms) + if dangling then "\\" else "")
  }

  function Rewritten(tokens: Lexed, line: nat): string
  {
    Spelling(Rewrite(tokens, line, {}))
  }

  lemma {:induction false} SpreadStays(state: State, piece: string, rest: Lexed, line: nat) returns (line': nat)
    requires !InLiteral(state)
    ensures Rewritten(Spread(state, piece, rest), line) == piece + Rewritten(rest, line')
  {
    line' := line;
    if piece != [] {
      line' := SpreadStays(state, piece[1..], rest, LineAfter(piece[..1], line));
      assert piece == piece[..1] + piece[1..];
      Joined(piece[..1], piece[1..], Rewritten(rest, line'));
    } else {
      assert piece + Rewritten(rest, line) == Rewritten(rest, line);
    }
  }

  lemma AtomSwaps(state: State, atom: Atom, rest: Lexed, line: nat)
    requires InLiteral(state)
    ensures var lexeme := if atom.One? then [atom.c] else ['\\', atom.c];
      var written := if atom.One? then Swap(atom.c) else ['\\', atom.c];
      Rewritten(Token(state, lexeme, rest), line) == written + Rewritten(rest, LineAfter(lexeme, line))
  {
    SwapIsAscii(atom.c);
    if atom.One? && Mapped(atom.c) {
      SpreadSpells(state, Ascii(atom.c), Rewrite(rest, line, {}));
    }
  }

  lemma {:induction false} AtomsSwap(state: State, atoms: seq<Atom>, rest: Lexed, line: nat) returns (line': nat)
    requires InLiteral(state)
    ensures Rewritten(AtomTokens(state, atoms, rest), line) == SwapAtoms(atoms) + Rewritten(rest, line')
  {
    line' := line;
    if atoms == [] {
      assert SwapAtoms(atoms) + Rewritten(rest, line) == Rewritten(rest, line);
    } else {
      var lexeme := if atoms[0].One? then [atoms[0].c] else ['\\', atoms[0].c];
      line' := AtomsSwap(state, atoms[1..], rest, LineAfter(lexeme, line));
      AtomSwaps(state, atoms[0], AtomTokens(state, atoms[1..], rest), line);
      Joined(if atoms[0].One? then Swap(atoms[0].c) else ['\\', atoms[0].c], SwapAtoms(atoms[1..]), Rewritten(rest, line'));
    }
  }

  lemma LastSwaps(state: State, dangling: bool, line: nat)
    ensures Rewritten(if dangling then Token(state, "\\", End(state)) else End(state), line) == if dangling then "\\" else ""
  {
    if dangling {
      var last := Token(state, "\\", End(state));
      assert !Reported(state, "\\");
      assert Rewrite(last, line, {}) == last;
      assert Spelling(last) == "\\" + Spelling(End(state));
    }
  }

  lemma {:induction false} TokensSwap(src: Source, line: nat)
    requires SourceOk(src)
    ensures Rewritten(Tokens(src), line) == Swapped(src)
    decreases src
  {
    match src
    case Done =>
    case Letter(c, rest) => TokensSwap(rest, LineAfter([c], line));
    case Remark(body, rest) =>
      var line' := SpreadStays(LineComment, body, Token(LineComment, "\n", Tokens(rest)), line);
      TokensSwap(rest, line' + 1);
    case OpenRemark(body) =>
      var line' := SpreadStays(LineComment, body, End(LineComment), line);
    case Block(body, rest) =>
      var line' := SpreadStays(BlockComment, body, Token(BlockComment, "*/", Tokens(rest)), line);
      TokensSwap(rest, line');
    case OpenBlock(body) =>
      var line' := SpreadStays(BlockComment, body, End(BlockComment), line);
    case Quoted(quote, atoms, rest) =>
      var line' := AtomsSwap(StateOf(quote), atoms, Token(StateOf(quote), [quote], Tokens(rest)), line);
      TokensSwap(rest, line');
    case OpenQuote(quote, atoms, dangling) =>
      var end := End(StateOf(quote));
      var last := if dangling then Token(StateOf(quote), "\\", end) else end;
      var line' := AtomsSwap(StateOf(quote), atoms, last, line);
      LastSwaps(StateOf(quote), dangling, line');
  }

  /** Fixing a text without markers replaces those characters in its literals, and nothing else. */
  lemma FixSwaps(src: Source)
    requires SourceOk(src) && AllowLines(Spell(src)) == {}
    ensures Fix(Spell(src)) == Swapped(src)
  {
    LexReadsParts(src);
    TokensSwap(src, 1);
  }

  // --- What is not in a literal ----------------------------------------------------------------

  /** Each character on its own. */
  function Each(state: State, piece: string): seq<(State, string)>
  {
    if piece == [] then [] else [(state, piece[..1])] + Each(state, piece[1..])
  }

  /** Code and comments, and the quotes that open literals. */
  function Outside(src: Source): seq<(State, string)>
  {
    match src
    case Done => []
    case Letter(c, rest) => [(Code, [c])] + Outside(rest)
    case Remark(body, rest) => [(Code, "//")] + (Each(LineComment, body) + ([(LineComment, "\n")] + Outside(rest)))
    case OpenRemark(body) => [(Code, "//")] + Each(LineComment, body)
    case Block(body, rest) => [(Code, "/*")] + (Each(BlockComment, body) + ([(BlockComment, "*/")] + Outside(rest)))
    case OpenBlock(body) => [(Code, "/*")] + Each(BlockComment, body)
    case Quoted(quote, _, rest) => [(Code, [quote])] + Outside(rest)
    case OpenQuote(quote, _, _) => [(Code, [quote])]
  }

  lemma {:induction false} SpreadOutside(state: State, piece: string, rest: Lexed)
    requires !InLiteral(state)
    ensures Unquoted(Spread(state, piece, rest)) == Each(state, piece) + Unquoted(rest)
  {
    if piece == [] {
      assert Each(state, piece) + Unquoted(rest) == Unquoted(rest);
    } else {
      SpreadOutside(state, piece[1..], rest);
      Joined([(state, piece[..1])], Each(state, piece[1..]), Unquoted(rest));
    }
  }

  lemma {:induction false} AtomsInside(quote: char, atoms: seq<Atom>, rest: Lexed)
    ensures Unquoted(AtomTokens(StateOf(quote), atoms, rest)) == Unquoted(rest)
  {
    if atoms != [] {
      AtomsInside(quote, atoms[1..], rest);
    }
  }

  lemma CommentOutside(open: string, state: State, body: string, rest: Lexed)
    requires !InLiteral(state)
    ensures Unquoted(Token(Code, open, Spread(state, body, rest))) == [(Code, open)] + (Each(state, body) + Unquoted(rest))
  {
    SpreadOutside(state, body, rest);
  }

  lemma ClosingOutside(state: State, lexeme: string, rest: Lexed)
    requires !InLiteral(state)
    ensures Unquoted(Token(state, lexeme, rest)) == [(state, lexeme)] + Unquoted(rest)
  {
  }

  lemma LiteralOutside(quote: char, atoms: seq<Atom>, rest: Lexed)
    ensures Unquoted(Token(Code, [quote], AtomTokens(StateOf(quote), atoms, rest))) == [(Code, [quote])] + Unquoted(rest)
  {
    AtomsInside(quote, atoms, rest);
  }

  lemma EndOutside(state: State, piece: string)
    ensures Each(state, piece) + Unquoted(End(state)) == Each(state, piece)
  {
  }

  /** What fixing keeps apart from literals is all there is apart from literals. */
  lemma {:induction false} TokensOutside(src: Source)
    requires SourceOk(src)
    ensures Unquoted(Tokens(src)) == Outside(src)
  {
    match src
    case Done =>
    case Letter(c, rest) =>
      TokensOutside(rest);
      ClosingOutside(Code, [c], Tokens(rest));
    case Remark(body, rest) =>
      TokensOutside(rest);
      ClosingOutside(LineComment, "\n", Tokens(rest));
      CommentOutside("//", LineComment, body, Token(LineComment, "\n", Tokens(rest)));
    case OpenRemark(body) =>
      CommentOutside("//", LineComment, body, End(LineComment));
      EndOutside(LineComment, body);
    case Block(body, rest) =>
      TokensOutside(rest);
      ClosingOutside(BlockComment, "*/", Tokens(rest));
      CommentOutside("/*", BlockComment, body, Token(BlockComment, "*/", Tokens(rest)));
    case OpenBlock(body) =>
      CommentOutside("/*", BlockComment, body, End(BlockComment));
      EndOutside(BlockComment, body);
    case Quoted(quote, atoms, rest) =>
      TokensOutside(rest);
      LiteralOutside(quote, atoms, Token(StateOf(quote), [quote], Tokens(rest)));
    case OpenQuote(quote, atoms, dangling) =>
      var end := End(StateOf(quote));
      LiteralOutside(quote, atoms, if dangling then Token(StateOf(quote), "\\", end) else end);
  }
}
