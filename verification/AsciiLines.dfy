/**
  Line numbers in scripts/check-output-ascii.py: the scanner counts line feeds
  it reads, the allow markers are looked up among the lines of
  `str.splitlines`. When the two agree.
 */
module AsciiLines {
  import opened CLexer
  import opened PyText
  import opened AsciiFix
  import Blanking

  // --- Which line holds a character ----------------------------------------------------

  /** The character at `i` ends a line: a break, other than the first of a CR LF pair. */
  predicate EndsLine(text: string, i: nat)
    requires i < |text|
  {
    IsBreak(text[i]) && !(text[i] == '\r' && i + 1 < |text| && text[i + 1] == '\n')
  }

  function One(b: bool): nat
  {
    if b then 1 else 0
  }

  /** How many lines end before position `pos`. */
  function LinesBefore(text: string, pos: nat): nat
    requires pos <= |text|
  {
    if pos == 0 then 0 else LinesBefore(text, pos - 1) + One(EndsLine(text, pos - 1))
  }

  function FeedsBefore(text: string, pos: nat): nat
    requires pos <= |text|
  {
    if pos == 0 then 0 else FeedsBefore(text, pos - 1) + One(text[pos - 1] == '\n')
  }

  /** How many lines end before `pos` with anything but a line feed. */
  function OthersBefore(text: string, pos: nat): nat
    requires pos <= |text|
  {
    if pos == 0 then 0 else OthersBefore(text, pos - 1) + One(EndsLine(text, pos - 1) && text[pos - 1] != '\n')
  }

  lemma {:induction false} LinesAreFeedsAndOthers(text: string, pos: nat)
    requires pos <= |text|
    ensures LinesBefore(text, pos) == FeedsBefore(text, pos) + OthersBefore(text, pos)
  {
    if pos > 0 {
      LinesAreFeedsAndOthers(text, pos - 1);
    }
  }

  lemma {:induction false} LinesBeforeShift(text: string, w: nat, pos: nat)
    requires w <= pos <= |text|
    ensures LinesBefore(text, pos) == LinesBefore(text, w) + LinesBefore(text[w..], pos - w)
    decreases pos
  {
    if pos > w {
      LinesBeforeShift(text, w, pos - 1);
      var rest := text[w..];
      assert rest[pos - 1 - w] == text[pos - 1];
      assert pos < |text| ==> rest[pos - w] == text[pos];
    }
  }

  /** `[s..e)` is the line of `text` that position `pos` is on, its end aside. */
  ghost predicate IsLineAt(text: string, pos: nat, s: nat, e: nat)
  {
    && s <= pos <= e <= |text|
    && (forall k :: s <= k < e ==> !IsBreak(text[k]))
    && (s > 0 ==> EndsLine(text, s - 1)) && (e < |text| ==> IsBreak(text[e]))
  }

  /** The first break, or the end of the text. */
  function FirstBreak(text: string): (e: nat)
    ensures e <= |text| && (forall k :: 0 <= k < e ==> !IsBreak(text[k])) && (e < |text| ==> IsBreak(text[e]))
  {
    if text == [] || IsBreak(text[0]) then 0 else 1 + FirstBreak(text[1..])
  }

  lemma {:induction false} FirstLine(text: string)
    requires text != []
    ensures SplitLines(text) != [] && SplitLines(text)[0] == text[..FirstBreak(text)]
  {
    if !IsBreak(text[0]) && |text| > 1 {
      FirstLine(text[1..]);
      assert text[..1 + FirstBreak(text[1..])] == text[..1] + text[1..][..FirstBreak(text[1..])];
    }
  }

  /** `[s..e)` is that line, and entry number `n` of `splitlines`. */
  ghost predicate IsEntry(text: string, pos: nat, n: nat, s: nat, e: nat)
  {
    IsLineAt(text, pos, s, e) && n < |SplitLines(text)| && SplitLines(text)[n] == text[s..e] && (n == 0 <==> s == 0)
  }

  /** The line that holds a character is the entry of `splitlines` counted by the ends before it. */
  lemma {:induction false} LineHolding(text: string, pos: nat) returns (s: nat, e: nat)
    requires pos < |text| && text[pos] != '\n'
    ensures IsEntry(text, pos, LinesBefore(text, pos), s, e)
    decreases |text|
  {
    if pos == 0 {
      s, e := 0, FirstBreak(text);
      FirstEntry(text);
    } else {
      LinesBehind(text, pos);
      var w := BreakWidth(text);
      var s', e' := LineHolding(text[w..], pos - w);
      s, e := EntryBehind(text, pos, LinesBefore(text[w..], pos - w), s', e');
    }
  }

  lemma FirstEntry(text: string)
    requires text != []
    ensures IsEntry(text, 0, 0, 0, FirstBreak(text))
  {
    FirstLine(text);
  }

  lemma EntryBehind(text: string, pos: nat, n: nat, s': nat, e': nat) returns (s: nat, e: nat)
    requires text != [] && BreakWidth(text) <= pos < |text|
    requires IsEntry(text[BreakWidth(text)..], pos - BreakWidth(text), n, s', e')
    ensures IsEntry(text, pos, One(IsBreak(text[0])) + n, s, e)
  {
    var w := BreakWidth(text);
    if IsBreak(text[0]) {
      BehindBreak(text, w, pos, n, s', e');
      s, e := s' + w, e' + w;
    } else {
      BehindPlain(text, pos, n, s', e');
      s, e := if n == 0 then 0 else s' + 1, e' + 1;
    }
  }

  /** How many characters `splitlines` takes at the front: a CR LF pair counts as one break. */
  function BreakWidth(text: string): nat
  {
    if |text| > 1 && text[0] == '\r' && text[1] == '\n' then 2 else 1
  }

  lemma LinesBehind(text: string, pos: nat)
    requires 0 < pos < |text| && text[pos] != '\n'
    ensures var w := BreakWidth(text);
      w <= pos && LinesBefore(text, pos) == One(IsBreak(text[0])) + LinesBefore(text[w..], pos - w)
  {
    var w := BreakWidth(text);
    LinesBeforeShift(text, w, pos);
    assert LinesBefore(text, 0) == 0 && LinesBefore(text, 1) == One(EndsLine(text, 0));
    if w == 2 {
      assert LinesBefore(text, 2) == LinesBefore(text, 1) + One(EndsLine(text, 1));
    }
  }

  lemma SliceOfTail(text: string, w: nat, s: nat, e: nat)
    requires w <= |text| && s <= e <= |text| - w
    ensures text[w..][s..e] == text[s + w..e + w]
  {
  }

  /** A break in front is a line of its own. */
  lemma BehindBreak(text: string, w: nat, pos: nat, n: nat, s: nat, e: nat)
    requires text != [] && IsBreak(text[0]) && w == BreakWidth(text) && w <= pos < |text|
    requires IsEntry(text[w..], pos - w, n, s, e)
    ensures IsEntry(text, pos, 1 + n, s + w, e + w)
  {
    SliceOfTail(text, w, s, e);
    ShiftedLine(text, w, pos, s, e);
    assert SplitLines(text) == [""] + SplitLines(text[w..]);
    assert EndsLine(text, w - 1);
  }

  /** Anything else in front joins the first line. */
  lemma BehindPlain(text: string, pos: nat, n: nat, s: nat, e: nat)
    requires text != [] && !IsBreak(text[0]) && 1 <= pos < |text| && IsEntry(text[1..], pos - 1, n, s, e)
    ensures IsEntry(text, pos, n, if n == 0 then 0 else s + 1, e + 1)
  {
    SliceOfTail(text, 1, s, e);
    ShiftedLine(text, 1, pos, s, e);
    assert SplitLines(text) == Prepend(text[..1], SplitLines(text[1..]));
    PrependAt(text[..1], SplitLines(text[1..]), n);
    if n == 0 {
      assert text[..1] + text[1..e + 1] == text[0..e + 1];
    }
  }

  lemma PrependAt(p: string, lines: seq<string>, n: nat)
    requires n < |lines|
    ensures |Prepend(p, lines)| == |lines| && Prepend(p, lines)[n] == if n == 0 then p + lines[0] else lines[n]
  {
  }

  lemma ShiftedLine(text: string, w: nat, pos: nat, s': nat, e': nat)
    requires w <= pos < |text| && IsLineAt(text[w..], pos - w, s', e')
    ensures e' + w <= |text| && (forall k :: s' + w <= k < e' + w ==> !IsBreak(text[k]))
    ensures (s' > 0 ==> EndsLine(text, s' + w - 1)) && (e' + w < |text| ==> IsBreak(text[e' + w]))
  {
    var rest := text[w..];
    assert forall k :: 0 <= k < |rest| ==> rest[k] == text[k + w];
    forall k | s' + w <= k < e' + w
      ensures !IsBreak(text[k])
    {
      assert rest[k - w] == text[k];
    }
    if s' > 0 {
      assert rest[s' - 1] == text[s' + w - 1];
      assert s' < |rest| ==> rest[s'] == text[s' + w];
    }
  }

  // --- Where findings stand ---------------------------------------------------------------

  /** The position of a finding, and how many escaped line feeds come before it. */
  datatype Place = Place(pos: nat, lag: nat)

  function Places(tokens: Lexed, pos: nat, lag: nat): seq<Place>
  {
    match tokens
    case End(_) => []
    case Token(state, lexeme, rest) =>
      (if Reported(state, lexeme) then [Place(pos, lag)] else [])
      + Places(rest, pos + |lexeme|, lag + One(lexeme == "\\\n"))
  }

  /** A token holds a line feed only by being one, counted, or by escaping one, not counted. */
  lemma TokenFeeds(text: string, from: nat, state: State)
    requires from < |text|
    ensures var w := Width(state, text[from..]); var lexeme := text[from..][..w];
      from + w <= |text| && FeedsBefore(text, from + w) == FeedsBefore(text, from) + One(lexeme == "\n") + One(lexeme == "\\\n")
  {
    var tail := text[from..];
    var w := Width(state, tail);
    var lexeme := tail[..w];
    assert tail[0] == text[from] && (w == 2 ==> tail[1] == text[from + 1]);
    if w == 1 {
      assert lexeme == [text[from]];
    } else {
      assert lexeme == [text[from], text[from + 1]];
      assert FeedsBefore(text, from + 2) == FeedsBefore(text, from + 1) + One(text[from + 1] == '\n');
    }
  }

  /** A finding's number falls short of the line feeds before it by the escaped ones. */
  ghost predicate Counted(text: string, base: int, f: Finding, p: Place)
  {
    p.pos < |text| && text[p.pos] == f.what && NonAscii(f.what) && f.line + p.lag == base + FeedsBefore(text, p.pos)
  }

  ghost predicate AllCounted(text: string, base: int, fs: seq<Finding>, ps: seq<Place>)
  {
    |fs| == |ps| && forall k :: 0 <= k < |fs| ==> Counted(text, base, fs[k], ps[k])
  }

  lemma {:induction false} FindingsCounted(text: string, from: nat, state: State, line: nat, lag: nat)
    requires from <= |text|
    ensures var tokens := Lex(text[from..], state);
      AllCounted(text, line + lag - FeedsBefore(text, from), Findings(tokens, line), Places(tokens, from, lag))
    decreases |text| - from
  {
    if from < |text| {
      var tail := text[from..];
      var w := Width(state, tail);
      var lexeme := tail[..w];
      TokenFeeds(text, from, state);
      FindingsCounted(text, from + w, Next(state, tail), LineAfter(lexeme, line), lag + One(lexeme == "\\\n"));
      CountedStep(text, from, state, line, lag, lexeme, Lex(text[from + w..], Next(state, tail)));
      LexAt(text, from, state);
    }
  }

  lemma CountedStep(text: string, from: nat, state: State, line: nat, lag: nat, lexeme: string, rest: Lexed)
    requires from < |text| && lexeme != [] && lexeme[0] == text[from] && from + |lexeme| <= |text|
    requires FeedsBefore(text, from + |lexeme|) == FeedsBefore(text, from) + One(lexeme == "\n") + One(lexeme == "\\\n")
    requires var line', lag' := LineAfter(lexeme, line), lag + One(lexeme == "\\\n");
      AllCounted(text, line' + lag' - FeedsBefore(text, from + |lexeme|), Findings(rest, line'), Places(rest, from + |lexeme|, lag'))
    ensures var tokens := Token(state, lexeme, rest);
      AllCounted(text, line + lag - FeedsBefore(text, from), Findings(tokens, line), Places(tokens, from, lag))
  {
    TokenCounted(text, line + lag - FeedsBefore(text, from), state, lexeme, rest, from, line, lag);
  }

  lemma TokenCounted(text: string, base: int, state: State, lexeme: string, rest: Lexed, from: nat, line: nat, lag: nat)
    requires from < |text| && lexeme != [] && lexeme[0] == text[from] && line + lag == base + FeedsBefore(text, from)
    requires AllCounted(text, base, Findings(rest, LineAfter(lexeme, line)),
                        Places(rest, from + |lexeme|, lag + One(lexeme == "\\\n")))
    ensures var tokens := Token(state, lexeme, rest);
      AllCounted(text, base, Findings(tokens, line), Places(tokens, from, lag))
  {
    var fs, ps := Findings(rest, LineAfter(lexeme, line)), Places(rest, from + |lexeme|, lag + One(lexeme == "\\\n"));
    if Reported(state, lexeme) {
      FirstCounted(text, base, Finding(line, lexeme[0]), Place(from, lag), fs, ps);
    } else {
      assert [] + fs == fs && [] + ps == ps;
    }
  }

  lemma FirstCounted(text: string, base: int, f: Finding, p: Place, fs: seq<Finding>, ps: seq<Place>)
    requires Counted(text, base, f, p) && AllCounted(text, base, fs, ps)
    ensures AllCounted(text, base, [f] + fs, [p] + ps)
  {
  }

  function PlacesIn(text: string): seq<Place>
  {
    Places(Lex(text, Code), 0, 0)
  }

  /**
    For every text and every finding: the number it is reported under is the
    number of the line that holds it if and only if no literal before it
    escapes a line feed and no line before it ends otherwise than in one.
   */
  lemma NumberIsLineIff(text: string, k: nat)
    requires k < |Scan(text)|
    ensures |PlacesIn(text)| == |Scan(text)|
    ensures var f, p := Scan(text)[k], PlacesIn(text)[k];
      && p.pos < |text| && text[p.pos] == f.what
      && f.line + p.lag + OthersBefore(text, p.pos) == 1 + LinesBefore(text, p.pos)
      && (f.line == 1 + LinesBefore(text, p.pos) <==> p.lag == 0 && OthersBefore(text, p.pos) == 0)
  {
    FindingsCounted(text, 0, Code, 1, 0);
    assert text[0..] == text;
    assert Counted(text, 1, Scan(text)[k], PlacesIn(text)[k]);
    LinesAreFeedsAndOthers(text, PlacesIn(text)[k].pos);
  }

  // --- The counter at the end -----------------------------------------------------------------

  /** The counter after all the tokens. */
  function LineAtEnd(tokens: Lexed, line: nat): nat
  {
    match tokens
    case End(_) => line
    case Token(_, lexeme, rest) => LineAtEnd(rest, LineAfter(lexeme, line))
  }

  /** Over a whole text the counter counts every line feed but those that literals escape. */
  lemma {:induction false} LineCounterCounts(text: string, state: State, line: nat)
    ensures LineAtEnd(Lex(text, state), line) + Blanking.EscapedBreaks(text, state) == line + Blanking.Breaks(text)
    decreases |text|
  {
    if text != [] {
      var w, next := Width(state, text), Next(state, text);
      LineCounterCounts(text[w..], next, LineAfter(text[..w], line));
      TokenBreaks(text, state);
      assert text == text[..w] + text[w..];
      Blanking.BreaksConcat(text[..w], text[w..]);
    }
  }

  lemma TokenBreaks(text: string, state: State)
    requires text != []
    ensures var w := Width(state, text);
      Blanking.Breaks(text[..w]) == (if text[..w] == "\n" then 1 else 0)
        + (if Blanking.AtEscape(state, text) && NextIs(text, '\n') then 1 else 0)
  {
    var lexeme := text[..Width(state, text)];
    Blanking.BreaksShort(lexeme);
    assert |lexeme| == 1 ==> (lexeme == "\n" <==> lexeme[0] == '\n');
  }

  // --- Markers ------------------------------------------------------------------------------

  lemma {:induction false} MarkedIff(lines: seq<string>, first: nat, n: nat)
    ensures n in Marked(lines, first) <==> first <= n < first + |lines| && HasMarker(lines[n - first])
  {
    if lines != [] {
      MarkedIff(lines[1..], first + 1, n);
    }
  }

  /** So a finding with its right number is exempt if and only if its own line carries the marker. */
  lemma OwnMarkerExempts(text: string, k: nat) returns (s: nat, e: nat)
    requires k < |Scan(text)| && |PlacesIn(text)| == |Scan(text)|
    requires PlacesIn(text)[k].lag == 0 && PlacesIn(text)[k].pos <= |text| && OthersBefore(text, PlacesIn(text)[k].pos) == 0
    ensures IsLineAt(text, PlacesIn(text)[k].pos, s, e)
    ensures Scan(text)[k].line in AllowLines(text) <==> HasMarker(text[s..e])
  {
    NumberIsLineIff(text, k);
    FindingsCounted(text, 0, Code, 1, 0);
    assert text[0..] == text;
    var pos := PlacesIn(text)[k].pos;
    assert Counted(text, 1, Scan(text)[k], PlacesIn(text)[k]);
    s, e := LineHolding(text, pos);
    MarkedIff(SplitLines(text), 1, Scan(text)[k].line);
  }

  /** A continued literal: the finding is filed under the line above. */
  lemma EscapedFeedLags()
    ensures var text := "'\\\n\U{E9}"; text[2] == '\n' && text[3] == '\U{E9}' && Scan(text) == [Finding(1, '\U{E9}')]
  {
    var text := "'\\\n\U{E9}";
    assert text[1..] == "\\\n\U{E9}" && text[..1] == "'";
    assert "\\\n\U{E9}"[2..] == "\U{E9}" && "\\\n\U{E9}"[..2] == "\\\n";
    assert "\U{E9}"[1..] == [] && "\U{E9}"[..1] == "\U{E9}";
    assert Findings(Lex("\U{E9}", Chr), 1) == [Finding(1, '\U{E9}')];
  }

  /** A form feed, an open quote, an em dash and then `rest`. */
  function FormFeedText(rest: string): string
  {
    "\U{0C}" + ("'" + ("\U{2014}" + rest))
  }

  lemma Cons(c: char, rest: string)
    ensures ([c] + rest)[..1] == [c] && ([c] + rest)[1..] == rest && ([c] + rest)[0] == c
  {
  }

  ghost predicate IsPlain(s: string)
  {
    forall k :: 0 <= k < |s| ==> s[k] != '\\' && s[k] != '\'' && !NonAscii(s[k]) && !IsBreak(s[k])
  }

  lemma FormFeedLexes(rest: string)
    requires IsPlain(rest)
    ensures Lex(FormFeedText(rest), Code) ==
      Token(Code, "\U{0C}", Token(Code, "'", Token(Chr, "\U{2014}", Spread(Chr, rest, End(Chr)))))
  {
    var b := "\U{2014}" + rest;
    var a := "'" + b;
    LexPlain(Chr, rest, "");
    assert rest + "" == rest;
    LexCons('\U{2014}', rest, Chr, Chr);
    LexCons('\'', b, Code, Chr);
    LexCons('\U{0C}', a, Code, Code);
  }

  lemma LexCons(c: char, rest: string, state: State, next: State)
    requires Width(state, [c] + rest) == 1 && Next(state, [c] + rest) == next
    ensures Lex([c] + rest, state) == Token(state, [c], Lex(rest, next))
  {
    Cons(c, rest);
  }

  lemma FormFeedSplits(rest: string)
    requires IsPlain(rest)
    ensures SplitLines(FormFeedText(rest)) == ["", "'" + ("\U{2014}" + rest)]
  {
    var a := "'" + ("\U{2014}" + rest);
    Cons('\U{0C}', a);
    assert a + [] == a;
    SplitPlain(a, []);
    assert SplitLines(a) == [a];
  }

  lemma FormFeedMarks(rest: string)
    requires IsPlain(rest) && HasMarker(rest)
    ensures AllowLines(FormFeedText(rest)) == {2}
  {
    FormFeedSplits(rest);
    var a := "'" + ("\U{2014}" + rest);
    assert a[2..] == rest;
    MarkerLater(a, 2);
    assert ["", a][1..] == [a] && [a][1..] == [];
    assert !HasMarker("");
    assert Marked([a], 2) == {2} + Marked([], 3);
  }

  /**
    A form feed before it: the marker stands on the finding's own line, number
    2, and the finding, number 1, is rewritten all the same.
   */
  lemma FormFeedLags(rest: string)
    requires IsPlain(rest) && HasMarker(rest)
    ensures var text := FormFeedText(rest);
      AllowLines(text) == {2} && Scan(text) == [Finding(1, '\U{2014}')] && FixCount(text) == 1
  {
    FormFeedMarks(rest);
    FormFeedLexes(rest);
    SpreadFindings(Chr, rest, End(Chr), 1);
    SpreadAgain(Chr, rest, End(Chr), 1, {2});
    var dash := Token(Chr, "\U{2014}", Spread(Chr, rest, End(Chr)));
    assert Findings(dash, 1) == [Finding(1, '\U{2014}')] && Changes(dash, 1, {2}) == 1;
    var quote := Token(Code, "'", dash);
    assert Findings(quote, 1) == [] + Findings(dash, 1) && Changes(quote, 1, {2}) == 1;
  }
}
