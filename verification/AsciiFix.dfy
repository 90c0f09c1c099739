/**
  The console-glyph checker scripts/check-output-ascii.py: `scan` reports the
  non-ASCII characters of string and character literals, `fix_text` replaces
  those that have an ASCII spelling.
 */
module AsciiFix {
  import opened CLexer
  import opened Sequences
  import opened PyText

  predicate NonAscii(c: char)
  {
    c > '\U{7F}'
  }

  /** The characters with an ASCII spelling: dashes, arrows, the ellipsis and the curly single quotes. */
  predicate Mapped(c: char)
  {
    c in {'\U{2014}', '\U{2013}', '\U{2192}', '\U{2190}', '\U{2026}', '\U{2018}', '\U{2019}'}
  }

  predicate CurlyQuote(c: char)
  {
    c == '\U{2018}' || c == '\U{2019}'
  }

  /** `FIX_MAP`; characters without an entry stand for themselves. */
  function Ascii(c: char): (r: string)
    ensures |r| > 0
    ensures Mapped(c) ==> forall k :: 0 <= k < |r| ==>
      !NonAscii(r[k]) && r[k] != '"' && r[k] != '\\' && (r[k] == '\'' ==> CurlyQuote(c))
    ensures CurlyQuote(c) ==> r == "'"
  {
    if c == '\U{2014}' || c == '\U{2013}' then "-"
    else if c == '\U{2192}' then "->"
    else if c == '\U{2190}' then "<-"
    else if c == '\U{2026}' then "..."
    else if CurlyQuote(c) then "'"
    else [c]
  }

  // --- Scanning and fixing, token by token ----------------------------------------------

  /** The `line` counter after a token: an escaped line break is not counted. */
  function LineAfter(lexeme: string, line: nat): nat
  {
    if lexeme == "\n" then line + 1 else line
  }

  /** The token is one non-ASCII character of a literal. */
  predicate Reported(state: State, lexeme: string)
  {
    InLiteral(state) && |lexeme| == 1 && NonAscii(lexeme[0])
  }

  datatype Finding = Finding(line: nat, what: char)

  /** What `scan` reports. */
  function Findings(tokens: Lexed, line: nat): seq<Finding>
  {
    match tokens
    case End(_) => []
    case Token(state, lexeme, rest) =>
      (if Reported(state, lexeme) then [Finding(line, lexeme[0])] else []) + Findings(rest, LineAfter(lexeme, line))
  }

  predicate Replaced(state: State, lexeme: string, line: nat, allow: set<nat>)
  {
    Reported(state, lexeme) && Mapped(lexeme[0]) && line !in allow
  }

  /** One token for each character of `piece`. */
  function Spread(state: State, piece: string, rest: Lexed): Lexed
  {
    if piece == [] then rest else Token(state, piece[..1], Spread(state, piece[1..], rest))
  }

  /** The tokens `fix_text` means to write. */
  function Rewrite(tokens: Lexed, line: nat, allow: set<nat>): Lexed
  {
    match tokens
    case End(last) => End(last)
    case Token(state, lexeme, rest) =>
      if Replaced(state, lexeme, line, allow) then Spread(state, Ascii(lexeme[0]), Rewrite(rest, line, allow))
      else Token(state, lexeme, Rewrite(rest, LineAfter(lexeme, line), allow))
  }

  function Changes(tokens: Lexed, line: nat, allow: set<nat>): nat
  {
    match tokens
    case End(_) => 0
    case Token(state, lexeme, rest) =>
      (if Replaced(state, lexeme, line, allow) then 1 else 0) + Changes(rest, LineAfter(lexeme, line), allow)
  }

  /** A curly quote inside a character literal would be replaced by the character that ends the literal. */
  predicate ClosesEarly(tokens: Lexed, line: nat, allow: set<nat>)
  {
    match tokens
    case End(_) => false
    case Token(state, lexeme, rest) =>
      || (Replaced(state, lexeme, line, allow) && state == Chr && CurlyQuote(lexeme[0]))
      || ClosesEarly(rest, LineAfter(lexeme, line), allow)
  }

  // --- The fixed text has the meant tokens -----------------------------------------------

  function HeadState(tokens: Lexed): State
  {
    match tokens
    case End(last) => last
    case Token(state, _, _) => state
  }

  lemma RewriteHead(text: string, state: State, line: nat, allow: set<nat>)
    ensures HeadState(Rewrite(Lex(text, state), line, allow)) == state
  {
    if text != [] {
      var lexeme := text[..Width(state, text)];
      if Replaced(state, lexeme, line, allow) {
        assert Ascii(lexeme[0]) != [];
      }
    }
  }

  /** Outside literals the next character to be read is the one that was there. */
  lemma RewriteLookahead(text: string, state: State, line: nat, allow: set<nat>)
    requires !InLiteral(state)
    ensures var out := Spelling(Rewrite(Lex(text, state), line, allow));
      if text == [] then out == [] else out != [] && out[0] == text[0]
  {
  }

  lemma {:induction false} SpreadSpells(state: State, piece: string, rest: Lexed)
    ensures Spelling(Spread(state, piece, rest)) == piece + Spelling(rest)
  {
    if piece != [] {
      SpreadSpells(state, piece[1..], rest);
      assert piece[..1] + (piece[1..] + Spelling(rest)) == piece + Spelling(rest);
    }
  }

  lemma {:induction false} SpreadInjective(state: State, piece: string, a: Lexed, b: Lexed)
    ensures Spread(state, piece, a) == Spread(state, piece, b) <==> a == b
  {
    if piece != [] {
      SpreadInjective(state, piece[1..], a, b);
    }
  }

  /** Plain characters of a literal are read one by one. */
  lemma {:induction false} LexPlain(state: State, piece: string, tail: string)
    requires InLiteral(state)
    requires forall k :: 0 <= k < |piece| ==> piece[k] != '\\' && piece[k] != Quote(state)
    ensures Lex(piece + tail, state) == Spread(state, piece, Lex(tail, state))
  {
    if piece == [] {
      assert piece + tail == tail;
    } else {
      var text := piece + tail;
      assert text[..1] == piece[..1] && text[1..] == piece[1..] + tail;
      LexPlain(state, piece[1..], tail);
    }
  }

  /** A token that is kept is read again as it was. */
  lemma LexKept(text: string, state: State, out: string)
    requires text != []
    requires var w, next := Width(state, text), Next(state, text);
      !InLiteral(next) && w < |text| ==> out != [] && out[0] == text[w]
    requires var w := Width(state, text); w == |text| ==> out == []
    ensures var w := Width(state, text);
      Lex(text[..w] + out, state) == Token(state, text[..w], Lex(out, Next(state, text)))
  {
    var w := Width(state, text);
    var again := text[..w] + out;
    assert again[0] == text[0];
    assert w == 2 ==> again[1] == text[1];
    assert w == 1 && out != [] ==> again[1] == out[0];
    assert Width(state, again) == w && Next(state, again) == Next(state, text);
    assert again[..w] == text[..w] && again[w..] == out;
  }

  /**
    Lexical simulation: re-scanning the fixed text goes through the rewritten
    tokens, each in the state it had, if and only if no curly quote is replaced
    inside a character literal.
   */
  lemma {:induction false} FixedTextRescans(text: string, state: State, line: nat, allow: set<nat>)
    ensures var tokens := Lex(text, state);
      Lex(Spelling(Rewrite(tokens, line, allow)), state) == Rewrite(tokens, line, allow)
      <==> !ClosesEarly(tokens, line, allow)
    decreases |text|
  {
    if text != [] {
      var w, next := Width(state, text), Next(state, text);
      var lexeme, rest := text[..w], Lex(text[w..], next);
      var line' := LineAfter(lexeme, line);
      var tail := Rewrite(rest, line', allow);
      FixedTextRescans(text[w..], next, line', allow);
      if Replaced(state, lexeme, line, allow) {
        FixReplaced(state, lexeme[0], tail);
        RewriteHead(text[w..], next, line', allow);
      } else {
        if !InLiteral(next) {
          RewriteLookahead(text[w..], next, line', allow);
        }
        LexKept(text, state, Spelling(tail));
      }
    }
  }

  lemma FixReplaced(state: State, c: char, tail: Lexed)
    requires InLiteral(state) && Mapped(c) && HeadState(tail) == state
    ensures var all := Spread(state, Ascii(c), tail);
      Lex(Spelling(all), state) == all
      <==> Lex(Spelling(tail), state) == tail && !(state == Chr && CurlyQuote(c))
  {
    var p, out := Ascii(c), Spelling(tail);
    SpreadSpells(state, p, tail);
    if state == Chr && CurlyQuote(c) {
      assert (p + out)[..1] == "'" && (p + out)[1..] == out;
      assert Lex(p + out, Chr) == Token(Chr, "'", Lex(out, Code));
      assert Spread(Chr, p, tail) == Token(Chr, "'", tail) by {
        assert p[..1] == "'" && p[1..] == [];
      }
      assert HeadState(Lex(out, Code)) == Code;
    } else {
      LexPlain(state, p, out);
      SpreadInjective(state, p, Lex(out, state), tail);
    }
  }

  /** Replacing a curly quote in a character literal ends it early. */
  lemma CurlyQuoteClosesEarly()
    ensures var text := "'\U{2019}";
      Spelling(Rewrite(Lex(text, Code), 1, {})) == "''" && Lex(text, Code) == Token(Code, "'", Token(Chr, "\U{2019}", End(Chr)))
      && Lex("''", Code) == Token(Code, "'", Token(Chr, "'", End(Code)))
  {
    var text := "'\U{2019}";
    assert text[1..] == "\U{2019}" && text[..1] == "'";
    assert "\U{2019}"[1..] == [] && "\U{2019}"[..1] == "\U{2019}";
    assert "''"[1..] == "'" && "''"[..1] == "'" && "'"[1..] == [] && "'"[..1] == "'";
    assert Spread(Chr, "'", End(Chr)) == Token(Chr, "'", End(Chr));
  }

  // --- What fixing leaves ----------------------------------------------------------------

  /** The findings a fix leaves: no ASCII spelling, or on an allowed line. */
  function Kept(findings: seq<Finding>, allow: set<nat>): seq<Finding>
  {
    if findings == [] then []
    else (if Mapped(findings[0].what) && findings[0].line !in allow then [] else findings[..1])
         + Kept(findings[1..], allow)
  }

  lemma {:induction false} SpreadFindings(state: State, piece: string, rest: Lexed, line: nat)
    requires InLiteral(state)
    requires forall k :: 0 <= k < |piece| ==> !NonAscii(piece[k]) && piece[k] != '\n'
    ensures Findings(Spread(state, piece, rest), line) == Findings(rest, line)
  {
    if piece != [] {
      SpreadFindings(state, piece[1..], rest, line);
    }
  }

  lemma {:induction false} RewriteKeepsFindings(tokens: Lexed, line: nat, allow: set<nat>)
    ensures Findings(Rewrite(tokens, line, allow), line) == Kept(Findings(tokens, line), allow)
  {
    if tokens.Token? {
      var line' := LineAfter(tokens.lexeme, line);
      RewriteKeepsFindings(tokens.rest, line', allow);
      var more := Findings(tokens.rest, line');
      assert [] + more == more && [] + Kept(more, allow) == Kept(more, allow);
      if Reported(tokens.state, tokens.lexeme) {
        var all := [Finding(line, tokens.lexeme[0])] + more;
        assert all[1..] == more && all[..1] == [Finding(line, tokens.lexeme[0])];
        if Replaced(tokens.state, tokens.lexeme, line, allow) {
          SpreadFindings(tokens.state, Ascii(tokens.lexeme[0]), Rewrite(tokens.rest, line, allow), line);
        }
      }
    }
  }

  /** The tokens outside literals. */
  function Unquoted(tokens: Lexed): seq<(State, string)>
  {
    match tokens
    case End(_) => []
    case Token(state, lexeme, rest) => (if InLiteral(state) then [] else [(state, lexeme)]) + Unquoted(rest)
  }

  lemma {:induction false} SpreadUnquoted(state: State, piece: string, rest: Lexed)
    requires InLiteral(state)
    ensures Unquoted(Spread(state, piece, rest)) == Unquoted(rest)
  {
    if piece != [] {
      SpreadUnquoted(state, piece[1..], rest);
    }
  }

  /** Code and comments are not touched. */
  lemma {:induction false} RewriteKeepsUnquoted(tokens: Lexed, line: nat, allow: set<nat>)
    ensures Unquoted(Rewrite(tokens, line, allow)) == Unquoted(tokens)
  {
    if tokens.Token? {
      RewriteKeepsUnquoted(tokens.rest, LineAfter(tokens.lexeme, line), allow);
      if Replaced(tokens.state, tokens.lexeme, line, allow) {
        SpreadUnquoted(tokens.state, Ascii(tokens.lexeme[0]), Rewrite(tokens.rest, line, allow));
      }
    }
  }

  lemma {:induction false} SpreadAgain(state: State, piece: string, rest: Lexed, line: nat, allow: set<nat>)
    requires InLiteral(state)
    requires forall k :: 0 <= k < |piece| ==> !NonAscii(piece[k]) && piece[k] != '\n'
    ensures Rewrite(Spread(state, piece, rest), line, allow) == Spread(state, piece, Rewrite(rest, line, allow))
    ensures Changes(Spread(state, piece, rest), line, allow) == Changes(rest, line, allow)
  {
    if piece != [] {
      SpreadAgain(state, piece[1..], rest, line, allow);
    }
  }

  /** Rewriting again, with no fewer allowed lines, changes nothing. */
  lemma {:induction false} RewriteTwice(tokens: Lexed, line: nat, allow: set<nat>, allow': set<nat>)
    requires allow <= allow'
    ensures var once := Rewrite(tokens, line, allow);
      Rewrite(once, line, allow') == once && Changes(once, line, allow') == 0
  {
    if tokens.Token? {
      RewriteTwice(tokens.rest, LineAfter(tokens.lexeme, line), allow, allow');
      if Replaced(tokens.state, tokens.lexeme, line, allow) {
        SpreadAgain(tokens.state, Ascii(tokens.lexeme[0]), Rewrite(tokens.rest, line, allow), line, allow');
      }
    }
  }

  // --- The allow marker ---------------------------------------------------------------------

  const MARKER := "ascii-allow"

  /** `MARKER in line`. */
  predicate HasMarker(line: string)
  {
    line != [] && (MARKER <= line || HasMarker(line[1..]))
  }

  ghost predicate MarkerAt(line: string, k: nat)
  {
    k + 11 <= |line| && line[k..k + 11] == "ascii-allow"
  }

  lemma MarkerAtShift(line: string, k: nat)
    requires line != []
    ensures MarkerAt(line[1..], k) <==> MarkerAt(line, k + 1)
  {
    if k + 12 <= |line| {
      assert line[1..][k..k + 11] == line[k + 1..k + 12];
    }
  }

  lemma MarkerInFront(line: string)
    ensures MARKER <= line <==> MarkerAt(line, 0)
  {
    assert |MARKER| == 11;
    if |line| >= 11 {
      assert line[0..11] == line[..11];
    }
  }

  /** The marker stands somewhere in the line. */
  lemma {:induction false} HasMarkerIff(line: string)
    ensures HasMarker(line) <==> exists k :: MarkerAt(line, k)
  {
    if line != [] {
      HasMarkerIff(line[1..]);
      MarkerInFront(line);
      if k: nat :| MarkerAt(line, k) && k > 0 {
        MarkerAtShift(line, k - 1);
      }
      if k: nat :| MarkerAt(line[1..], k) {
        MarkerAtShift(line, k);
      }
    }
  }

  function Marked(lines: seq<string>, first: nat): set<nat>
  {
    if lines == [] then {} else (if HasMarker(lines[0]) then {first} else {}) + Marked(lines[1..], first + 1)
  }

  /** `allow_lines`: the numbers, from 1, of the lines with a marker. */
  function AllowLines(text: string): set<nat>
  {
    Marked(SplitLines(text), 1)
  }

  /** `b` is `a` with some mapped characters replaced. */
  predicate Spelt(a: string, b: string)
  {
    if a == [] then b == []
    else
      || (b != [] && a[0] == b[0] && Spelt(a[1..], b[1..]))
      || (Mapped(a[0]) && Ascii(a[0]) <= b && Spelt(a[1..], b[|Ascii(a[0])|..]))
  }

  lemma SpeltReplaced(c: char, a: string, b: string)
    requires Mapped(c) && Spelt(a, b)
    ensures Spelt([c] + a, Ascii(c) + b)
  {
    assert ([c] + a)[1..] == a && (Ascii(c) + b)[|Ascii(c)|..] == b;
  }

  lemma {:induction false} SpeltKept(x: string, a: string, b: string)
    requires Spelt(a, b)
    ensures Spelt(x + a, x + b)
  {
    if x == [] {
      assert x + a == a && x + b == b;
    } else {
      SpeltKept(x[1..], a, b);
      assert (x + a)[1..] == x[1..] + a && (x + b)[1..] == x[1..] + b;
    }
  }

  lemma {:induction false} RewriteSpelt(tokens: Lexed, line: nat, allow: set<nat>)
    ensures Spelt(Spelling(tokens), Spelling(Rewrite(tokens, line, allow)))
  {
    if tokens.Token? {
      var line' := LineAfter(tokens.lexeme, line);
      RewriteSpelt(tokens.rest, line', allow);
      var a, b := Spelling(tokens.rest), Spelling(Rewrite(tokens.rest, line', allow));
      if Replaced(tokens.state, tokens.lexeme, line, allow) {
        var c := tokens.lexeme[0];
        assert tokens.lexeme == [c];
        SpreadSpells(tokens.state, Ascii(c), Rewrite(tokens.rest, line, allow));
        SpeltReplaced(c, a, b);
      } else {
        SpeltKept(tokens.lexeme, a, b);
      }
    }
  }

  // Replacing characters neither makes nor removes a line break ...

  lemma SpeltHead(a: string, b: string)
    requires Spelt(a, b)
    ensures a == [] <==> b == []
    ensures a != [] ==> (a[0] == '\n' <==> b[0] == '\n')
    ensures a != [] && !Mapped(a[0]) ==> a[0] == b[0] && Spelt(a[1..], b[1..])
  {
  }

  predicate LinesSpelt(la: seq<string>, lb: seq<string>)
  {
    if la == [] then lb == []
    else lb != [] && Spelt(la[0], lb[0]) && LinesSpelt(la[1..], lb[1..])
  }

  lemma PrependSpelt(c: char, q: string, la: seq<string>, lb: seq<string>)
    requires LinesSpelt(la, lb) && (q == [c] || (Mapped(c) && q == Ascii(c)))
    ensures LinesSpelt(Prepend([c], la), Prepend(q, lb))
  {
    var x, y := if la == [] then "" else la[0], if lb == [] then "" else lb[0];
    assert [c] + "" == [c] && q + "" == q;
    if q == [c] {
      SpeltKept([c], x, y);
    } else {
      SpeltReplaced(c, x, y);
    }
    var ra, rb := Prepend([c], la), Prepend(q, lb);
    assert ra[0] == [c] + x && rb[0] == q + y;
    assert ra[1..] == (if la == [] then [] else la[1..]) && rb[1..] == (if lb == [] then [] else lb[1..]);
  }

  lemma {:induction false} SplitSpelt(a: string, b: string)
    requires Spelt(a, b)
    ensures LinesSpelt(SplitLines(a), SplitLines(b))
    decreases |a|
  {
    if a != [] {
      SpeltHead(a, b);
      if IsBreak(a[0]) {
        SpeltHead(a[1..], b[1..]);
        assert NextIs(a, '\n') <==> NextIs(b, '\n');
        var w := if a[0] == '\r' && NextIs(a, '\n') then 2 else 1;
        assert Spelt(a[w..], b[w..]) by {
          if w == 2 {
            assert a[1..][1..] == a[2..] && b[1..][1..] == b[2..];
          }
        }
        SplitSpelt(a[w..], b[w..]);
        var la, lb := SplitLines(a), SplitLines(b);
        assert la[1..] == SplitLines(a[w..]) && lb[1..] == SplitLines(b[w..]);
      } else {
        SplitSpeltPlain(a, b);
      }
    }
  }

  lemma {:induction false} SplitSpeltPlain(a: string, b: string)
    requires a != [] && !IsBreak(a[0]) && Spelt(a, b)
    ensures LinesSpelt(SplitLines(a), SplitLines(b))
    decreases |a|, 0
  {
    var q := if b[0] == a[0] && Spelt(a[1..], b[1..]) then [a[0]] else Ascii(a[0]);
    var tail := b[|q|..];
    assert b == q + tail;
    SplitSpelt(a[1..], tail);
    SplitPlain(q, tail);
    assert a[..1] == [a[0]];
    PrependSpelt(a[0], q, SplitLines(a[1..]), SplitLines(tail));
  }

  // ... and never removes a marker.

  lemma {:induction false} PrefixSpelt(m: string, a: string, b: string)
    requires m <= a && Spelt(a, b) && forall k :: 0 <= k < |m| ==> !Mapped(m[k])
    ensures m <= b
  {
    if m != [] {
      SpeltHead(a, b);
      assert a[0] == m[0] && m[1..] <= a[1..];
      PrefixSpelt(m[1..], a[1..], b[1..]);
      assert m == [m[0]] + m[1..] && b == [b[0]] + b[1..];
    }
  }

  lemma {:induction false} MarkerLater(line: string, k: nat)
    requires k <= |line| && HasMarker(line[k..])
    ensures HasMarker(line)
    decreases k
  {
    if k > 0 {
      assert line[1..][k - 1..] == line[k..];
      MarkerLater(line[1..], k - 1);
    } else {
      assert line[0..] == line;
    }
  }

  lemma {:induction false} MarkerSpelt(a: string, b: string)
    requires Spelt(a, b) && HasMarker(a)
    ensures HasMarker(b)
  {
    if MARKER <= a {
      PrefixSpelt(MARKER, a, b);
    } else {
      var k := if b != [] && a[0] == b[0] && Spelt(a[1..], b[1..]) then 1 else |Ascii(a[0])|;
      MarkerSpelt(a[1..], b[k..]);
      MarkerLater(b, k);
    }
  }

  lemma {:induction false} MarkedSpelt(la: seq<string>, lb: seq<string>, first: nat)
    requires LinesSpelt(la, lb)
    ensures Marked(la, first) <= Marked(lb, first)
  {
    if la != [] {
      MarkedSpelt(la[1..], lb[1..], first + 1);
      if HasMarker(la[0]) {
        MarkerSpelt(la[0], lb[0]);
      }
    }
  }

  // --- The checker's loops --------------------------------------------------------------------

  /** `scan` and `fix_text` as functions of a text. */
  function Scan(text: string): seq<Finding>
  {
    Findings(Lex(text, Code), 1)
  }

  function Fix(text: string): string
  {
    Spelling(Rewrite(Lex(text, Code), 1, AllowLines(text)))
  }

  function FixCount(text: string): nat
  {
    Changes(Lex(text, Code), 1, AllowLines(text))
  }

  /** Some curly quote in a character literal, on a line without a marker. */
  predicate QuoteInChar(text: string)
  {
    ClosesEarly(Lex(text, Code), 1, AllowLines(text))
  }

  lemma FixAddsMarkers(text: string)
    ensures AllowLines(text) <= AllowLines(Fix(text))
  {
    var tokens := Lex(text, Code);
    LexIsLossless(text, Code);
    RewriteSpelt(tokens, 1, AllowLines(text));
    SplitSpelt(text, Fix(text));
    MarkedSpelt(SplitLines(text), SplitLines(Fix(text)), 1);
  }

  /**
    On every text where no curly quote is replaced inside a character literal:
    code and comments survive, exactly the findings without a spelling or on an
    allowed line remain, and a second fix changes nothing.
   */
  lemma FixIsFinal(text: string)
    requires !QuoteInChar(text)
    ensures Unquoted(Lex(Fix(text), Code)) == Unquoted(Lex(text, Code))
    ensures Scan(Fix(text)) == Kept(Scan(text), AllowLines(text))
    ensures Fix(Fix(text)) == Fix(text) && FixCount(Fix(text)) == 0
  {
    var tokens, allow := Lex(text, Code), AllowLines(text);
    FixedTextRescans(text, Code, 1, allow);
    RewriteKeepsUnquoted(tokens, 1, allow);
    RewriteKeepsFindings(tokens, 1, allow);
    FixAddsMarkers(text);
    RewriteTwice(tokens, 1, allow, AllowLines(Fix(text)));
  }

  /** The findings `check_file` prints: those not on a marked line. */
  function Unallowed(findings: seq<Finding>, allow: set<nat>): seq<Finding>
  {
    if findings == [] then []
    else (if findings[0].line in allow then [] else findings[..1]) + Unallowed(findings[1..], allow)
  }

  function Unmapped(findings: seq<Finding>): seq<Finding>
  {
    if findings == [] then []
    else (if Mapped(findings[0].what) then [] else findings[..1]) + Unmapped(findings[1..])
  }

  function Report(text: string): seq<Finding>
  {
    Unallowed(Scan(text), AllowLines(text))
  }

  lemma UnallowedCons(f: Finding, rest: seq<Finding>, allow: set<nat>)
    ensures Unallowed([f] + rest, allow) == (if f.line in allow then [] else [f]) + Unallowed(rest, allow)
    ensures Unmapped([f] + rest) == (if Mapped(f.what) then [] else [f]) + Unmapped(rest)
  {
    assert ([f] + rest)[1..] == rest && ([f] + rest)[..1] == [f];
  }

  lemma {:induction false} KeptReport(findings: seq<Finding>, allow: set<nat>, allow': set<nat>)
    requires allow <= allow'
    ensures Unallowed(Kept(findings, allow), allow') == Unallowed(Unmapped(Unallowed(findings, allow)), allow')
  {
    if findings != [] {
      var f, rest := findings[0], findings[1..];
      KeptReport(rest, allow, allow');
      assert findings == [f] + rest && findings[..1] == [f];
      KeptReportStep(f, Kept(rest, allow), Unallowed(rest, allow), allow, allow');
    }
  }

  lemma KeptReportStep(f: Finding, kept: seq<Finding>, left: seq<Finding>, allow: set<nat>, allow': set<nat>)
    requires allow <= allow' && Unallowed(kept, allow') == Unallowed(Unmapped(left), allow')
    ensures Unallowed((if Mapped(f.what) && f.line !in allow then [] else [f]) + kept, allow')
      == Unallowed(Unmapped((if f.line in allow then [] else [f]) + left), allow')
  {
    assert [] + kept == kept && [] + left == left && [] + Unmapped(left) == Unmapped(left);
    if f.line in allow {
      UnallowedCons(f, kept, allow');
    } else {
      UnallowedCons(f, left, allow');
      if !Mapped(f.what) {
        UnallowedCons(f, kept, allow');
        UnallowedCons(f, Unmapped(left), allow');
      }
    }
  }

  /** After a fix the check prints the unmapped findings it printed before, less those on newly marked lines. */
  lemma FixClearsReport(text: string)
    requires !QuoteInChar(text)
    ensures Report(Fix(text)) == Unallowed(Unmapped(Report(text)), AllowLines(Fix(text)))
  {
    FixIsFinal(text);
    FixAddsMarkers(text);
    KeptReport(Scan(text), AllowLines(text), AllowLines(Fix(text)));
  }

  /** One turn of the scanning loop: how far it moves, the new state and line, and whether it reports. */
  method ScanTurn(text: string, i: nat, state: State, line: nat)
    returns (move: nat, next: State, line': nat, report: bool)
    requires i < |text|
    ensures IsTurn(text, i, state, line, move, next, line', report)
  {
    var c := text[i];
    ghost var tail := text[i..];
    assert tail[0] == c && (i + 1 < |text| ==> tail[1] == text[i + 1]);
    ghost var lexeme := tail[..Width(state, tail)];
    assert lexeme[0] == c;
    move, next, line', report := 1, state, line, false;
    if c == '\n' {
      assert |lexeme| == 1;
      line' := line + 1;
      if state == LineComment {
        next := Code;
      }
    } else if state == Code {
      if c == '/' && i + 1 < |text| && text[i + 1] == '/' {
        move, next := 2, LineComment;
      } else if c == '/' && i + 1 < |text| && text[i + 1] == '*' {
        move, next := 2, BlockComment;
      } else if c == '"' {
        next := Str;
      } else if c == '\'' {
        next := Chr;
      }
    } else if state == LineComment {
    } else if state == BlockComment {
      if c == '*' && i + 1 < |text| && text[i + 1] == '/' {
        move, next := 2, Code;
      }
    } else if c == '\\' {
      move := 2;
    } else if c == Quote(state) {
      next := Code;
    } else if NonAscii(c) {
      report := true;
    }
  }

  function Clip(text: string, i: nat): (k: nat)
    ensures k <= |text|
  {
    if i <= |text| then i else |text|
  }

  lemma LexAt(text: string, i: nat, state: State)
    requires i < |text|
    ensures var tail := text[i..]; var w := Width(state, tail);
      Lex(tail, state) == Token(state, tail[..w], Lex(text[i + w..], Next(state, tail)))
  {
    var tail := text[i..];
    assert tail[Width(state, tail)..] == text[i + Width(state, tail)..];
  }

  // What is still to be found, written and counted from position `i` on.

  ghost function ToFind(text: string, i: nat, state: State, line: nat): seq<Finding>
  {
    Findings(Lex(text[Clip(text, i)..], state), line)
  }

  ghost function ToWrite(text: string, i: nat, state: State, line: nat, allow: set<nat>): string
  {
    Spelling(Rewrite(Lex(text[Clip(text, i)..], state), line, allow))
  }

  ghost function ToCount(text: string, i: nat, state: State, line: nat, allow: set<nat>): nat
  {
    Changes(Lex(text[Clip(text, i)..], state), line, allow)
  }

  /** `(move, next, line', report)` is the turn of the scanner at `i`. */
  ghost predicate IsTurn(text: string, i: nat, state: State, line: nat,
                         move: nat, next: State, line': nat, report: bool)
    requires i < |text|
  {
    var tail := text[i..];
    var w := Width(state, tail);
    && move > 0 && Clip(text, i + move) == i + w && next == Next(state, tail)
    && line' == LineAfter(tail[..w], line) && report == Reported(state, tail[..w])
  }

  lemma FindAt(text: string, i: nat, state: State, line: nat, move: nat, next: State, line': nat, report: bool)
    requires i < |text| && IsTurn(text, i, state, line, move, next, line', report)
    ensures ToFind(text, i, state, line)
      == (if report then [Finding(line, text[i])] else []) + ToFind(text, i + move, next, line')
  {
    LexAt(text, i, state);
  }

  lemma FixAt(text: string, i: nat, state: State, line: nat, allow: set<nat>,
              move: nat, next: State, line': nat, report: bool)
    requires i < |text| && IsTurn(text, i, state, line, move, next, line', report)
    ensures var changed := report && Mapped(text[i]) && line !in allow;
      && ToWrite(text, i, state, line, allow)
         == (if changed then Ascii(text[i]) else text[i..Clip(text, i + move)])
            + ToWrite(text, i + move, next, line', allow)
      && ToCount(text, i, state, line, allow)
         == (if changed then 1 else 0) + ToCount(text, i + move, next, line', allow)
  {
    LexAt(text, i, state);
    var tail := text[i..];
    var w := Width(state, tail);
    assert tail[..w] == text[i..i + w];
    if Replaced(state, tail[..w], line, allow) {
      SpreadSpells(state, Ascii(text[i]), Rewrite(Lex(text[i + w..], next), line, allow));
    }
  }

  /** `scan`. */
  method ScanText(text: string) returns (findings: seq<Finding>)
    ensures findings == Scan(text)
  {
    findings := [];
    var i: nat, line, state := 0, 1, Code;
    while i < |text|
      invariant findings + ToFind(text, i, state, line) == Scan(text)
      decreases |text| - i
    {
      var move, next, line', report := ScanTurn(text, i, state, line);
      FindAt(text, i, state, line, move, next, line', report);
      var more := if report then [Finding(line, text[i])] else [];
      Joined(findings, more, ToFind(text, i + move, next, line'));
      findings, i, state, line := findings + more, i + move, next, line';
    }
  }

  /** `fix_text`: the same loop, writing as it goes. */
  method FixText(text: string) returns (out: string, changes: nat)
    ensures out == Fix(text) && changes == FixCount(text)
  {
    var allow := AllowLines(text);
    out, changes := [], 0;
    var i: nat, line, state := 0, 1, Code;
    while i < |text|
      invariant out + ToWrite(text, i, state, line, allow) == Fix(text)
      invariant changes + ToCount(text, i, state, line, allow) == FixCount(text)
      decreases |text| - i
    {
      var move, next, line', report := ScanTurn(text, i, state, line);
      FixAt(text, i, state, line, allow, move, next, line', report);
      var piece := text[i..Clip(text, i + move)];
      if report && Mapped(text[i]) && line !in allow {
        piece, changes := Ascii(text[i]), changes + 1;
      }
      Joined(out, piece, ToWrite(text, i + move, next, line', allow));
      out, i, state, line := out + piece, i + move, next, line';
    }
  }
}
