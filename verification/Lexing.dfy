/** How an input splits into tokens, as functions on the characters not yet read. */
module Lexing {
  import opened Tokens

  // Reading functions return what is left after the part they read.

  function SkipSpaces(s: string): (rest: string)
    ensures |rest| <= |s| && (rest != "" ==> !IsSpace(rest[0]))
  {
    if s != "" && IsSpace(s[0]) then SkipSpaces(s[1..]) else s
  }

  function SkipWord(s: string): (rest: string)
    ensures |rest| <= |s|
  {
    if s != "" && IsAlnum(s[0]) then SkipWord(s[1..]) else s
  }

  function SkipDigits(s: string): (rest: string)
    ensures |rest| <= |s|
  {
    if s != "" && IsDigit(s[0]) then SkipDigits(s[1..]) else s
  }

  /** One advance(): CR LF is taken in one step. */
  function Step(s: string): (rest: string)
    ensures |rest| <= |s| && (s != "" ==> |rest| < |s|)
  {
    if s == "" then s else if s[0] == '\r' && HeadIs(s[1..], '\n') then s[2..] else s[1..]
  }

  function HeadIs(s: string, c: char): bool {
    s != "" && s[0] == c
  }

  function Taken(s: string, rest: string): string
    requires |rest| <= |s|
  {
    s[..|s| - |rest|]
  }

  // Numbers: digits, an optional fraction, an optional exponent.

  function SkipFraction(s: string): (rest: string)
    ensures |rest| <= |s|
  {
    if HeadIs(s, '.') && |s| > 1 && IsDigit(s[1]) then SkipDigits(s[1..]) else s
  }

  function SkipSign(s: string): (rest: string)
    ensures |rest| <= |s|
  {
    if HeadIs(s, '+') || HeadIs(s, '-') then s[1..] else s
  }

  function SkipExponent(s: string): (rest: string)
    ensures |rest| <= |s|
  {
    if HeadIs(s, 'e') || HeadIs(s, 'E') then
      var digits := SkipSign(s[1..]);
      if digits != "" && IsDigit(digits[0]) then SkipDigits(digits) else s
    else s
  }

  function LexNumber(s: string): (r: (Lexeme, string))
    ensures |r.1| <= |s|
  {
    var whole := SkipDigits(s);
    var rest := SkipExponent(SkipFraction(whole));
    (Lexeme(if rest == whole then IntegerLiteral else FloatLiteral, Taken(s, rest)), rest)
  }

  // Strings: read up to the quote that opened them, with backslash escapes.

  function Unescape(c: char): char {
    if c == 'n' then '\n'
    else if c == 't' then '\t'
    else if c == 'r' then '\r'
    else if c == 'b' then 8 as char
    else if c == 'f' then 12 as char
    else if c == 'v' then 11 as char
    else if c == '0' then '\0'
    else c
  }

  datatype Scan = Scan(closed: bool, value: string, rest: string)

  /** The rest of a string whose value so far is given. */
  function ScanString(quote: char, value: string, s: string, escaped: bool): (r: Scan)
    ensures |r.rest| <= |s|
    decreases |s|
  {
    if s == "" then Scan(false, value, s)
    else if escaped then ScanString(quote, value + [Unescape(s[0])], Step(s), false)
    else if s[0] == '\\' then ScanString(quote, value, s[1..], true)
    else if s[0] == quote then Scan(true, value, s[1..])
    else if s[0] == '\n' || s[0] == '\r' then Scan(false, value, s)
    else ScanString(quote, value + [s[0]], s[1..], false)
  }

  const UNTERMINATED := Lexeme(Error, "Unterminated string literal")

  function LexString(s: string): (r: (Lexeme, string))
    requires s != ""
    ensures |r.1| < |s|
  {
    var scan := ScanString(s[0], "", s[1..], false);
    (if scan.closed then Lexeme(StringLiteral, scan.value) else UNTERMINATED, scan.rest)
  }

  // Operators and separators.

  function LexSymbol(s: string): (r: (Lexeme, string))
    requires s != ""
    ensures |r.1| < |s| && !r.0.kind.EoF?
  {
    var c, rest := s[0], s[1..];
    if c == '=' then (Lexeme(Equal, "="), rest)
    else if c == '!' then
      if HeadIs(rest, '=') then (Lexeme(NotEqual, "!="), rest[1..]) else (Lexeme(Error, [c]), rest)
    else if c == '<' then
      if HeadIs(rest, '=') then (Lexeme(LessEqual, "<="), rest[1..])
      else if HeadIs(rest, '>') then (Lexeme(NotEqual, "<>"), rest[1..])
      else (Lexeme(LessThan, "<"), rest)
    else if c == '>' then
      if HeadIs(rest, '=') then (Lexeme(GreaterEqual, ">="), rest[1..]) else (Lexeme(GreaterThan, ">"), rest)
    else if c == '+' then (Lexeme(Plus, "+"), rest)
    else if c == '-' then (Lexeme(Minus, "-"), rest)
    else if c == '*' then (Lexeme(Star, "*"), rest)
    else if c == '/' then (Lexeme(Slash, "/"), rest)
    else if c == '%' then (Lexeme(Modulo, "%"), rest)
    else if c == ',' then (Lexeme(Comma, ","), rest)
    else if c == ';' then (Lexeme(Semicolon, ";"), rest)
    else if c == '.' then (Lexeme(Dot, "."), rest)
    else if c == '(' then (Lexeme(LeftParen, "("), rest)
    else if c == ')' then (Lexeme(RightParen, ")"), rest)
    else if c == '[' then (Lexeme(LeftBracket, "["), rest)
    else if c == ']' then (Lexeme(RightBracket, "]"), rest)
    else (Lexeme(Error, [c]), Step(s))
  }

  predicate StartsWord(c: char) {
    IsAlpha(c) || c == '_'
  }

  function LexWord(s: string): (r: (Lexeme, string))
    ensures |r.1| <= |s| && !r.0.kind.EoF?
  {
    var rest := SkipWord(s);
    (Lexeme(KeywordType(Taken(s, rest)), Taken(s, rest)), rest)
  }

  /** The token at the head of a text that starts with no space, and the text after it. */
  function LexOne(s: string): (r: (Lexeme, string))
    requires s != "" && !IsSpace(s[0])
    ensures |r.1| < |s| && !r.0.kind.EoF?
  {
    if StartsWord(s[0]) then LexWord(s)
    else if IsDigit(s[0]) then LexNumber(s)
    else if s[0] == '\'' || s[0] == '"' then LexString(s)
    else LexSymbol(s)
  }

  /** All tokens of a text.  The lexer answers EoF from the end of this list on. */
  function Lexemes(s: string): (ts: seq<Lexeme>)
    decreases |s|
  {
    var t := SkipSpaces(s);
    if t == "" then []
    else
      var (lexeme, rest) := LexOne(t);
      [lexeme] + Lexemes(rest)
  }

  // Where a position is in the text, counting CR, LF and CR LF as one line break each.

  /** A line break ends right before position p. */
  ghost predicate BreakEnds(input: string, p: nat)
    requires p <= |input|
  {
    p > 0 && (input[p - 1] == '\n' || (input[p - 1] == '\r' && !(p < |input| && input[p] == '\n')))
  }

  ghost predicate SplitsBreak(input: string, p: nat)
    requires p <= |input|
  {
    0 < p < |input| && input[p - 1] == '\r' && input[p] == '\n'
  }

  ghost function LineAt(input: string, p: nat): nat
    requires p <= |input|
  {
    if p == 0 then 1 else LineAt(input, p - 1) + if BreakEnds(input, p) then 1 else 0
  }

  ghost function ColumnAt(input: string, p: nat): nat
    requires p <= |input|
  {
    if p == 0 || BreakEnds(input, p) then 1 else ColumnAt(input, p - 1) + 1
  }
}
