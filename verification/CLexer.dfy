/**
  The lexical automaton of C text shared by scripts/check-dogfood.py,
  scripts/check-test-registered.py and scripts/check-output-ascii.py: which
  characters are code, comment, string literal or character literal.
 */
module CLexer {
  datatype State = Code | LineComment | BlockComment | Str | Chr

  predicate InLiteral(state: State)
  {
    state == Str || state == Chr
  }

  /** The character that ends the literal. */
  function Quote(state: State): char
  {
    if state == Str then '"' else '\''
  }

  /** The second character, which the scanners look ahead to. */
  predicate NextIs(text: string, c: char)
  {
    |text| > 1 && text[1] == c
  }

  /** How many characters the scanner takes in one step. */
  function Width(state: State, text: string): (w: nat)
    requires text != []
    ensures 1 <= w <= 2 && w <= |text|
  {
    match state
    case Code => if text[0] == '/' && (NextIs(text, '/') || NextIs(text, '*')) then 2 else 1
    case LineComment => 1
    case BlockComment => if text[0] == '*' && NextIs(text, '/') then 2 else 1
    case _ => if text[0] == '\\' && |text| > 1 then 2 else 1
  }

  /** The state after that step. */
  function Next(state: State, text: string): State
    requires text != []
  {
    match state
    case Code =>
      if text[0] == '/' && NextIs(text, '/') then LineComment
      else if text[0] == '/' && NextIs(text, '*') then BlockComment
      else if text[0] == '"' then Str
      else if text[0] == '\'' then Chr
      else Code
    case LineComment => if text[0] == '\n' then Code else LineComment
    case BlockComment => if text[0] == '*' && NextIs(text, '/') then Code else BlockComment
    case _ => if text[0] == Quote(state) then Code else state
  }

  /** The steps of a whole scan: the state each one starts in and the characters it takes. */
  datatype Lexed = End(last: State) | Token(state: State, lexeme: string, rest: Lexed)

  function Lex(text: string, state: State): Lexed
  {
    if text == [] then End(state)
    else
      var w := Width(state, text);
      Token(state, text[..w], Lex(text[w..], Next(state, text)))
  }

  function Spelling(tokens: Lexed): string
  {
    match tokens
    case End(_) => ""
    case Token(_, lexeme, rest) => lexeme + Spelling(rest)
  }

  /** No character is lost or seen twice. */
  lemma {:induction false} LexIsLossless(text: string, state: State)
    ensures Spelling(Lex(text, state)) == text
  {
    if text != [] {
      var w := Width(state, text);
      LexIsLossless(text[w..], Next(state, text));
      assert text == text[..w] + text[w..];
    }
  }
}
