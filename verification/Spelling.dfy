/**
 * How spaces, signs, numbers and strings are spelled, independently of what the formatters write, and where a
 * token stands.
 */
module Spelling {
  import opened Tokens
  import opened Lexing
  import opened Ast
  import opened TextRoundTrip

  // Spaces: space, tab, line feed, carriage return.

  lemma SpaceInText(c: char, rest: string)
    requires c as int in [32, 9, 10, 13]
    ensures Lexemes([c] + rest) == Lexemes(rest)
  {
    assert ([c] + rest)[1..] == rest;
  }

  // Signs.

  const ARITHMETIC_SIGNS := [
    Lexeme(Plus, "+"), Lexeme(Minus, "-"), Lexeme(Star, "*"), Lexeme(Slash, "/"), Lexeme(Modulo, "%")]

  const SEPARATORS := [
    Lexeme(Comma, ","), Lexeme(Semicolon, ";"), Lexeme(Dot, "."), Lexeme(LeftParen, "("), Lexeme(RightParen, ")"),
    Lexeme(LeftBracket, "["), Lexeme(RightBracket, "]")]

  const COMPARISON_SIGNS := [Lexeme(Equal, "="), Lexeme(LessThan, "<"), Lexeme(GreaterThan, ">")]

  const DOUBLE_SIGNS := [
    Lexeme(NotEqual, "!="), Lexeme(NotEqual, "<>"), Lexeme(LessEqual, "<="), Lexeme(GreaterEqual, ">=")]

  /** The sign followed by the text is not the beginning of a longer sign. */
  predicate Stands(sign: Lexeme, rest: string) {
    rest != "" ==>
      && (sign.value == "<" ==> rest[0] != '=' && rest[0] != '>')
      && (sign.value == ">" ==> rest[0] != '=')
  }

  lemma ArithmeticRead(sign: Lexeme, s: string)
    requires sign in ARITHMETIC_SIGNS && s != "" && [s[0]] == sign.value
    ensures IsSymbolChar(s[0]) && LexSymbol(s) == (sign, s[1..])
  {
    assert s[0] == sign.value[0];
  }

  lemma SeparatorIsRead(sign: Lexeme, s: string)
    requires sign in SEPARATORS && s != "" && [s[0]] == sign.value
    ensures IsSymbolChar(s[0]) && LexSymbol(s) == (sign, s[1..])
  {
    assert s[0] == sign.value[0];
  }

  lemma ComparisonRead(sign: Lexeme, s: string)
    requires sign in COMPARISON_SIGNS && s != "" && [s[0]] == sign.value && Stands(sign, s[1..])
    ensures IsSymbolChar(s[0]) && LexSymbol(s) == (sign, s[1..])
  {
    assert s[0] == sign.value[0];
  }

  lemma DoubleRead(sign: Lexeme, s: string)
    requires sign in DOUBLE_SIGNS && |s| > 1 && [s[0], s[1]] == sign.value
    ensures IsSymbolChar(s[0]) && LexSymbol(s) == (sign, s[2..])
  {
    assert s[0] == sign.value[0] && s[1] == sign.value[1];
    assert s[1..][1..] == s[2..];
  }

  /** Every sign is one token of its kind, both spellings of unequal included. */
  lemma SignInText(sign: Lexeme, rest: string)
    requires sign in ARITHMETIC_SIGNS || sign in SEPARATORS || sign in COMPARISON_SIGNS || sign in DOUBLE_SIGNS
    requires Stands(sign, rest)
    ensures Lexemes(sign.value + rest) == [sign] + Lexemes(rest)
  {
    hide Lexemes, LexSymbol, IsSymbolChar, Stands;
    var s := sign.value + rest;
    if sign in DOUBLE_SIGNS {
      assert |sign.value| == 2 && s[0] == sign.value[0] && s[1] == sign.value[1] && s[2..] == rest;
      DoubleRead(sign, s);
    } else {
      assert |sign.value| == 1 && s[0] == sign.value[0] && s[1..] == rest;
      if sign in ARITHMETIC_SIGNS {
        ArithmeticRead(sign, s);
      } else if sign in SEPARATORS {
        SeparatorIsRead(sign, s);
      } else {
        ComparisonRead(sign, s);
      }
    }
    LexSymbolHead(s);
  }

  /** Any other character is an error by itself; so is an exclamation mark without an equals sign. */
  lemma UnknownInText(c: char, rest: string)
    requires !(48 <= c as int <= 57 || 65 <= c as int <= 90 || c as int == 95 || 97 <= c as int <= 122)
    requires c !in "=<>+-*/%,;.()[]'\" \t\n\r" && (c == '!' ==> rest == "" || rest[0] != '=')
    ensures Lexemes([c] + rest) == [Lexeme(Error, [c])] + Lexemes(rest)
  {
    hide Lexemes;
    var s := [c] + rest;
    assert s[0] == c && s[1..] == rest;
    NotListed(c);
    LexSymbolHead(s);
  }

  lemma NotListed(c: char)
    requires c !in "=<>+-*/%,;.()[]'\" \t\n\r"
    ensures c != '=' && c != '<' && c != '>' && c != '+' && c != '-' && c != '*' && c != '/' && c != '%' && c != ','
    ensures c != ';' && c != '.' && c != '(' && c != ')' && c != '[' && c != ']' && c != '\'' && c != '"'
    ensures c != ' ' && c != '\t' && c != '\n' && c != '\r'
  {
    var all := "=<>+-*/%,;.()[]'\" \t\n\r";
    assert all[0] == '=' && all[1] == '<' && all[2] == '>' && all[3] == '+' && all[4] == '-' && all[5] == '*';
    assert all[6] == '/' && all[7] == '%' && all[8] == ',' && all[9] == ';' && all[10] == '.' && all[11] == '(';
    assert all[12] == ')' && all[13] == '[' && all[14] == ']' && all[15] == '\'' && all[16] == '"' && all[17] == ' ';
    assert all[18] == '\t' && all[19] == '\n' && all[20] == '\r';
  }

  // Numbers.

  predicate DigitChar(c: char) {
    48 <= c as int <= 57
  }

  predicate Digits(s: string) {
    s != "" && forall i | 0 <= i < |s| :: DigitChar(s[i])
  }

  predicate Fraction(s: string) {
    s != "" && s[0] == '.' && Digits(s[1..])
  }

  predicate Exponent(s: string) {
    && s != "" && (s[0] == 'e' || s[0] == 'E')
    && (Digits(s[1..]) || (|s| > 1 && (s[1] == '+' || s[1] == '-') && Digits(s[2..])))
  }

  predicate DigitFirst(s: string) {
    s != "" && DigitChar(s[0])
  }

  predicate FractionFirst(s: string) {
    s != "" && s[0] == '.' && DigitFirst(s[1..])
  }

  predicate ExponentFirst(s: string) {
    && s != "" && (s[0] == 'e' || s[0] == 'E')
    && (DigitFirst(s[1..]) || (|s| > 1 && (s[1] == '+' || s[1] == '-') && DigitFirst(s[2..])))
  }

  lemma DigitsAreRead(d: string, rest: string)
    requires Digits(d) && !DigitFirst(rest)
    ensures SkipDigits(d + rest) == rest
  {
    assert AllDigits(d) by {
      forall i | 0 <= i < |d|
        ensures IsDigit(d[i])
      {
        assert DigitChar(d[i]);
      }
    }
    DigitsRead(d, rest);
  }

  lemma FractionRead(f: string, rest: string)
    requires f == "" || Fraction(f)
    requires !DigitFirst(rest) && (f == "" ==> !FractionFirst(rest))
    ensures SkipFraction(f + rest) == rest
  {
    hide SkipDigits;
    if f == "" {
      assert f + rest == rest;
    } else {
      assert (f + rest)[1..] == f[1..] + rest && DigitChar(f[1..][0]);
      DigitsAreRead(f[1..], rest);
    }
  }

  lemma ExponentRead(x: string, rest: string)
    requires x == "" || Exponent(x)
    requires !DigitFirst(rest) && (x == "" ==> !ExponentFirst(rest))
    ensures SkipExponent(x + rest) == rest
  {
    hide SkipDigits;
    if x == "" {
      assert x + rest == rest;
    } else if Digits(x[1..]) {
      assert (x + rest)[1..] == x[1..] + rest && DigitChar(x[1..][0]);
      DigitsAreRead(x[1..], rest);
    } else {
      assert (x + rest)[1..] == x[1..] + rest && (x[1..] + rest)[1..] == x[2..] + rest && DigitChar(x[2..][0]);
      DigitsAreRead(x[2..], rest);
    }
  }

  lemma FractionStarts(f: string, rest: string)
    requires f == "" || Fraction(f)
    ensures f != "" ==> !DigitFirst(f + rest)
  {
  }

  lemma ExponentStarts(x: string, rest: string)
    requires x == "" || Exponent(x)
    ensures x != "" ==> !DigitFirst(x + rest) && !FractionFirst(x + rest)
  {
  }

  /** Every form of number is one token: an integer if it has neither fraction nor exponent. */
  lemma NumberInText(w: string, f: string, x: string, rest: string)
    requires Digits(w) && (f == "" || Fraction(f)) && (x == "" || Exponent(x))
    requires !DigitFirst(rest) && (x == "" ==> !ExponentFirst(rest))
    requires f == "" && x == "" ==> !FractionFirst(rest)
    ensures var text := w + f + x;
            Lexemes(text + rest)
            == [Lexeme(if f == "" && x == "" then IntegerLiteral else FloatLiteral, text)] + Lexemes(rest)
  {
    hide Lexemes, SkipDigits, SkipFraction, SkipExponent, Exponent, Fraction, ExponentFirst, FractionFirst;
    var text := w + f + x;
    var s := text + rest;
    assert s == w + (f + (x + rest));
    assert x == "" ==> x + rest == rest;
    assert f == "" ==> f + (x + rest) == x + rest;
    FractionStarts(f, x + rest);
    ExponentStarts(x, rest);
    DigitsAreRead(w, f + (x + rest));
    FractionRead(f, x + rest);
    ExponentRead(x, rest);
    assert Taken(s, rest) == text;
    assert DigitChar(w[0]) && s[0] == w[0];
    LexHead(s);
  }

  // Strings with backslash escapes.

  /** One character as it may be written inside quotes of either kind. */
  function Escaped(c: char): string {
    if c as int == 10 then "\\n"
    else if c as int == 9 then "\\t"
    else if c as int == 13 then "\\r"
    else if c as int == 8 then "\\b"
    else if c as int == 12 then "\\f"
    else if c as int == 11 then "\\v"
    else if c as int == 0 then "\\0"
    else if c == '\\' || c == '\'' || c == '"' then ['\\', c]
    else [c]
  }

  function EscapedAll(s: string): string {
    if s == "" then "" else Escaped(s[0]) + EscapedAll(s[1..])
  }

  lemma EscapeRead(quote: char, value: string, c: char, more: string)
    requires quote == '\'' || quote == '"'
    ensures ScanString(quote, value, Escaped(c) + more, false) == ScanString(quote, value + [c], more, false)
  {
    var s := Escaped(c) + more;
    if |Escaped(c)| == 1 {
      assert s[0] == c && s[1..] == more;
    } else {
      var e := Escaped(c)[1];
      assert s[0] == '\\' && s[1..] == [e] + more;
      assert ScanString(quote, value, s, false) == ScanString(quote, value, [e] + more, true);
      assert ([e] + more)[1..] == more && Step([e] + more) == more;
      assert Unescape(e) == c;
    }
  }

  lemma {:induction false} EscapesRead(quote: char, value: string, s: string, rest: string)
    requires quote == '\'' || quote == '"'
    ensures ScanString(quote, value, EscapedAll(s) + ([quote] + rest), false) == Scan(true, value + s, rest)
    decreases s
  {
    hide Escaped;
    if s == "" {
      assert EscapedAll(s) + ([quote] + rest) == [quote] + rest && value + s == value;
      assert ([quote] + rest)[1..] == rest;
    } else {
      var more := EscapedAll(s[1..]) + ([quote] + rest);
      assert EscapedAll(s) + ([quote] + rest) == Escaped(s[0]) + more;
      EscapeRead(quote, value, s[0], more);
      EscapesRead(quote, value + [s[0]], s[1..], rest);
      assert value + [s[0]] + s[1..] == value + s;
    }
  }

  /** Any string at all can be written between quotes of either kind, with backslashes, and is read back. */
  lemma EscapedStringReadsBack(quote: char, s: string, rest: string)
    requires quote == '\'' || quote == '"'
    ensures Lexemes([quote] + (EscapedAll(s) + ([quote] + rest))) == [Lexeme(StringLiteral, s)] + Lexemes(rest)
  {
    hide Lexemes, EscapedAll, ScanString;
    var text := [quote] + (EscapedAll(s) + ([quote] + rest));
    assert text[0] == quote && text[1..] == EscapedAll(s) + ([quote] + rest);
    EscapesRead(quote, "", s, rest);
    assert "" + s == s;
    LexHead(text);
  }

  /** A string that meets a line break or the end of the text before its quote is an error, and the break stays. */
  lemma UnterminatedString(quote: char, s: string, rest: string)
    requires quote == '\'' || quote == '"'
    requires forall i | 0 <= i < |s| :: s[i] != quote && s[i] != '\\' && s[i] as int != 10 && s[i] as int != 13
    requires rest != "" ==> rest[0] as int == 10 || rest[0] as int == 13
    ensures Lexemes([quote] + (s + rest)) == [Lexeme(Error, "Unterminated string literal")] + Lexemes(rest)
  {
    hide Lexemes, ScanString;
    var text := [quote] + (s + rest);
    assert text[0] == quote && text[1..] == s + rest;
    ScanStops(quote, "", s, rest);
    LexHead(text);
  }

  lemma {:induction false} ScanStops(quote: char, value: string, s: string, rest: string)
    requires quote == '\'' || quote == '"'
    requires forall i | 0 <= i < |s| :: s[i] != quote && s[i] != '\\' && s[i] as int != 10 && s[i] as int != 13
    requires rest != "" ==> rest[0] as int == 10 || rest[0] as int == 13
    ensures !ScanString(quote, value, s + rest, false).closed && ScanString(quote, value, s + rest, false).rest == rest
    decreases s
  {
    if s == "" {
      assert s + rest == rest;
    } else {
      assert (s + rest)[1..] == s[1..] + rest;
      ScanStops(quote, value + [s[0]], s[1..], rest);
    }
  }

  // Places: lines end at LF (10), at CR (13), and at CR LF once.

  lemma PlacesInText(input: string, p: nat)
    requires p < |input| && !SplitsBreak(input, p)
    ensures var c := input[p] as int;
            var two := c == 13 && p + 1 < |input| && input[p + 1] as int == 10;
            var next := if two then p + 2 else p + 1;
            && LineAt(input, next) == LineAt(input, p) + (if c == 10 || c == 13 then 1 else 0)
            && ColumnAt(input, next) == if c == 10 || c == 13 then 1 else ColumnAt(input, p) + 1
  {
  }

  lemma FirstPlace(input: string)
    ensures LineAt(input, 0) == 1 && ColumnAt(input, 0) == 1
  {
  }
}
