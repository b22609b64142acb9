/** The lexer: it walks over its input and hands out one token at a time. */
module Lexer {
  import opened Wrappers
  import opened Tokens
  import opened Lexing

  ghost function Upcoming(peeked: Option<Token>, text: string): seq<Lexeme> {
    if peeked.None? then Lexemes(text)
    else if peeked.value.kind.EoF? then []
    else [peeked.value.Strip()] + Lexemes(text)
  }

  /** The token's line and column are those of the first character after the spaces at the origin. */
  ghost predicate Placed(t: Token, input: string, origin: nat) {
    && origin <= |input|
    && var start := |input| - |SkipSpaces(input[origin..])|;
       t.line == LineAt(input, start) && t.column == ColumnAt(input, start)
  }

  class Lexer {
    const input: string
    var position: nat
    var line: nat
    var column: nat
    var peeked: Option<Token>
    ghost var tokens: seq<Lexeme>  // the tokens still to come
    ghost var origin: nat  // where the next token was or will be looked for

    /** Line and column are those of the position, which never falls inside a CR LF. */
    ghost predicate Located()
      reads this
    {
      && position <= |input| && !SplitsBreak(input, position)
      && line == LineAt(input, position) && column == ColumnAt(input, position)
    }

    /** Besides, the tokens are those of the text from the origin on; a peeked token has its place. */
    ghost predicate Valid()
      reads this
    {
      && Located() && tokens == Upcoming(peeked, Unread())
      && (peeked.Some? && peeked.value.kind.EoF? ==> Lexemes(Unread()) == [])
      && origin <= |input| && tokens == Lexemes(input[origin..])
      && if peeked.Some? then Placed(peeked.value, input, origin) else origin == position
    }

    ghost function Unread(): string
      requires position <= |input|
      reads this`position
    {
      input[position..]
    }

    constructor (input: string)
      ensures Valid() && this.input == input && tokens == Lexemes(input)
    {
      this.input := input;
      position, line, column := 0, 1, 1;
      peeked := None;
      tokens, origin := Lexemes(input), 0;
      assert input[0..] == input;
    }

    function PeekChar(): char
      requires position <= |input|
      reads this`position
    {
      if position >= |input| then '\0' else input[position]
    }

    method Advance() returns (c: char)
      requires Located()
      modifies this`position, this`line, this`column
      ensures Located()
      ensures Unread() == Step(old(Unread()))
      ensures c == if old(position) < |input| then input[old(position)] else '\0'
    {
      if position >= |input| {
        return '\0';
      }
      c := input[position];
      position := position + 1;
      if c == '\n' {
        line, column := line + 1, 1;
      } else if c == '\r' {
        if position < |input| && input[position] == '\n' {
          position := position + 1;
        }
        line, column := line + 1, 1;
      } else {
        column := column + 1;
      }
    }

    method Match(expected: char) returns (matched: bool)
      requires Located() && expected != '\0' && expected != '\r'
      modifies this`position, this`line, this`column
      ensures Located() && matched == HeadIs(old(Unread()), expected)
      ensures Unread() == if matched then old(Unread())[1..] else old(Unread())
    {
      if PeekChar() == expected {
        var _ := Advance();
        return true;
      }
      return false;
    }

    method SkipWhitespace()
      requires Located()
      modifies this`position, this`line, this`column
      ensures Located() && Unread() == SkipSpaces(old(Unread()))
    {
      while position < |input|
        invariant Located() && SkipSpaces(Unread()) == SkipSpaces(old(Unread()))
      {
        if IsSpace(PeekChar()) {
          assert SkipSpaces(Unread()) == SkipSpaces(Unread()[1..]);
          var _ := Advance();
        } else {
          break;
        }
      }
    }

    method ReadIdentifierOrKeyword() returns (t: Token)
      requires Located() && position < |input|
      modifies this`position, this`line, this`column
      ensures Located() && (t.Strip(), Unread()) == LexWord(old(Unread()))
      ensures t.line == old(line) && t.column == old(column)
    {
      var start, startLine, startColumn := position, line, column;
      while position < |input|
        invariant Located() && position >= start && SkipWord(Unread()) == SkipWord(old(Unread()))
      {
        if !IsAlnum(PeekChar()) {
          break;
        }
        var _ := Advance();
      }
      var text := input[start..position];
      assert text == Taken(old(Unread()), Unread());
      t := Token(KeywordType(text), text, startLine, startColumn);
    }

    method ReadDigits()
      requires Located()
      modifies this`position, this`line, this`column
      ensures Located() && Unread() == SkipDigits(old(Unread()))
    {
      while position < |input|
        invariant Located() && SkipDigits(Unread()) == SkipDigits(old(Unread()))
      {
        if !IsDigit(PeekChar()) {
          break;
        }
        var _ := Advance();
      }
    }

    /** A decimal point, if a digit follows it, with the digits after it. */
    method ReadFraction() returns (found: bool)
      requires Located()
      modifies this`position, this`line, this`column
      ensures Located() && Unread() == SkipFraction(old(Unread()))
      ensures found <==> position != old(position)
    {
      if PeekChar() == '.' && position + 1 < |input| && IsDigit(input[position + 1]) {
        var _ := Advance();
        ReadDigits();
        return true;
      }
      return false;
    }

    /** An exponent; without digits after e and its sign, the lexer goes back to the e. */
    method ReadExponent() returns (found: bool)
      requires Located()
      modifies this`position, this`line, this`column
      ensures Located() && Unread() == SkipExponent(old(Unread()))
      ensures found <==> position != old(position)
    {
      if position < |input| && (PeekChar() == 'e' || PeekChar() == 'E') {
        var savePosition, saveColumn := position, column;
        var _ := Advance();
        if PeekChar() == '+' || PeekChar() == '-' {
          var _ := Advance();
        }
        if IsDigit(PeekChar()) {
          ReadDigits();
          return true;
        }
        position, column := savePosition, saveColumn;
      }
      return false;
    }

    method ReadNumber() returns (t: Token)
      requires Located() && position < |input| && IsDigit(input[position])
      modifies this`position, this`line, this`column
      ensures Located() && (t.Strip(), Unread()) == LexNumber(old(Unread()))
      ensures t.line == old(line) && t.column == old(column)
    {
      var start, startLine, startColumn := position, line, column;
      ReadDigits();
      var fraction := ReadFraction();
      var exponent := ReadExponent();
      var text := input[start..position];
      assert text == Taken(old(Unread()), Unread());
      t := Token(if fraction || exponent then FloatLiteral else IntegerLiteral, text, startLine, startColumn);
    }

    method ReadString() returns (t: Token)
      requires Located() && position < |input| && (input[position] == '\'' || input[position] == '"')
      modifies this`position, this`line, this`column
      ensures Located() && (t.Strip(), Unread()) == LexString(old(Unread()))
      ensures t.line == old(line) && t.column == old(column)
    {
      var startLine, startColumn := line, column;
      var quote := Advance();
      var value, escaped := "", false;
      ghost var whole := ScanString(quote, "", Unread(), false);
      while position < |input|
        invariant Located() && ScanString(quote, value, Unread(), escaped) == whole
      {
        var c := PeekChar();
        if escaped {
          value := value + [Unescape(c)];
          escaped := false;
          var _ := Advance();
        } else if c == '\\' {
          escaped := true;
          var _ := Advance();
        } else if c == quote {
          var _ := Advance();
          return Token(StringLiteral, value, startLine, startColumn);
        } else if c == '\n' || c == '\r' {
          return Token(Error, "Unterminated string literal", startLine, startColumn);
        } else {
          value := value + [c];
          var _ := Advance();
        }
      }
      t := Token(Error, "Unterminated string literal", startLine, startColumn);
    }

    /** One operator or separator. */
    method ReadSymbol() returns (t: Token)
      requires Located() && position < |input| && !IsSpace(input[position])
      modifies this`position, this`line, this`column
      ensures Located() && (t.Strip(), Unread()) == LexSymbol(old(Unread()))
      ensures t.line == old(line) && t.column == old(column)
    {
      var startLine, startColumn := line, column;
      var c := Advance();
      var two := false;
      match c
      case '=' => t := Token(Equal, "=", startLine, startColumn);
      case '!' =>
        two := Match('=');
        t := if two then Token(NotEqual, "!=", startLine, startColumn) else Token(Error, [c], startLine, startColumn);
      case '<' =>
        two := Match('=');
        if two {
          return Token(LessEqual, "<=", startLine, startColumn);
        }
        two := Match('>');
        t := if two then Token(NotEqual, "<>", startLine, startColumn)
             else Token(LessThan, "<", startLine, startColumn);
      case '>' =>
        two := Match('=');
        t := if two then Token(GreaterEqual, ">=", startLine, startColumn)
             else Token(GreaterThan, ">", startLine, startColumn);
      case '+' => t := Token(Plus, "+", startLine, startColumn);
      case '-' => t := Token(Minus, "-", startLine, startColumn);
      case '*' => t := Token(Star, "*", startLine, startColumn);
      case '/' => t := Token(Slash, "/", startLine, startColumn);
      case '%' => t := Token(Modulo, "%", startLine, startColumn);
      case ',' => t := Token(Comma, ",", startLine, startColumn);
      case ';' => t := Token(Semicolon, ";", startLine, startColumn);
      case '.' => t := Token(Dot, ".", startLine, startColumn);
      case '(' => t := Token(LeftParen, "(", startLine, startColumn);
      case ')' => t := Token(RightParen, ")", startLine, startColumn);
      case '[' => t := Token(LeftBracket, "[", startLine, startColumn);
      case ']' => t := Token(RightBracket, "]", startLine, startColumn);
      case _ => t := Token(Error, [c], startLine, startColumn);
    }

    /** The next token of the text: its kind and value, its place, and what is left after it. */
    method NextInternal() returns (t: Token)
      requires Located()
      modifies this`position, this`line, this`column
      ensures Located()
      ensures var text := old(Unread());
              var start := |input| - |SkipSpaces(text)|;
              && t.line == LineAt(input, start) && t.column == ColumnAt(input, start)
              && if start == |input| then t.Strip() == Lexeme(EoF, "") && Unread() == ""
                 else (t.Strip(), Unread()) == LexOne(SkipSpaces(text))
    {
      SkipWhitespace();
      if position >= |input| {
        return Token(EoF, "", line, column);
      }
      var current := PeekChar();
      if StartsWord(current) {
        t := ReadIdentifierOrKeyword();
      } else if IsDigit(current) {
        t := ReadNumber();
      } else if current == '\'' || current == '"' {
        t := ReadString();
      } else {
        t := ReadSymbol();
      }
    }

    /** Hands out the next token; at the end it keeps answering EoF. */
    method Next() returns (t: Token)
      requires Valid()
      modifies this
      ensures Valid()
      ensures if old(tokens) == [] then t.kind.EoF? && tokens == []
              else !t.kind.EoF? && old(tokens) == [t.Strip()] + tokens
      ensures Placed(t, input, old(origin)) && origin == position
      ensures !t.kind.EoF? && old(peeked).None? ==> position > old(position)
    {
      hide LexOne, SkipSpaces, LineAt, ColumnAt, SplitsBreak;
      if peeked.Some? {
        t := peeked.value;
        peeked := None;
      } else {
        t := NextInternal();
      }
      tokens, origin := Lexemes(Unread()), position;
    }

    /** Shows the next token without consuming it. */
    method Peek() returns (t: Token)
      requires Valid()
      modifies this
      ensures Valid() && peeked == Some(t) && tokens == old(tokens)
      ensures Placed(t, input, old(origin)) && origin == old(origin)
      ensures if tokens == [] then t.kind.EoF? else !t.kind.EoF? && t.Strip() == tokens[0]
    {
      hide LexOne, SkipSpaces, LineAt, ColumnAt, SplitsBreak;
      if peeked.None? {
        var token := NextInternal();
        peeked := Some(token);
      }
      t := peeked.value;
    }
  }
}
