/** Forms of the language that the parser accepts but no formatter writes, and the bounds of its numbers. */
module AcceptedForms {
  import opened Wrappers
  import opened Tokens
  import opened Ast
  import opened Grammar
  import opened StatementGrammar
  import opened Printing
  import opened StatementPrinting
  import opened RoundTrip
  import opened StatementRoundTrip
  import opened Precedence

  /** An item of ORDER BY without a direction is ascending. */
  lemma DirectionDefault(e: Expr, rest: seq<Lexeme>)
    requires Fits(e, Free) && Closes(Kind(rest)) && !Kind(rest).Asc? && !Kind(rest).Desc?
    ensures ParseOrderItem(Print(e, rest)) == Ok(OrderByItem(e, ASC), rest)
  {
    hide Fits, Print, ParseExpression, Kind, Closes;
    ClosesQuietly(Kind(rest));
    FreeParses(e, rest);
  }

  /** With a direction it is as it says. */
  lemma DirectionRead(e: Expr, direction: Lexeme, rest: seq<Lexeme>)
    requires Fits(e, Free) && (direction.kind.Asc? || direction.kind.Desc?)
    ensures ParseOrderItem(Print(e, [direction] + rest))
         == Ok(OrderByItem(e, if direction.kind.Asc? then ASC else DESC), rest)
  {
    hide Fits, Print, ParseExpression, Kind, Advance;
    Next(direction, rest);
    FreeParses(e, [direction] + rest);
  }

  /** Parentheses may stand around any expression and leave nothing in the tree. */
  lemma ParenthesesRead(e: Expr, rest: seq<Lexeme>)
    requires Fits(e, Free)
    ensures ParseUnary([LPAREN] + Print(e, [RPAREN] + rest)) == Ok(e, rest)
  {
    hide Fits, Print, ParseExpression, ParseUnary;
    Next(RPAREN, rest);
    FreeParses(e, [RPAREN] + rest);
    GroupStep(Print(e, [RPAREN] + rest), e, rest);
  }

  /** Integers go up to 2^63 - 1; there the parser gives up. */
  lemma IntegersRead(n: nat, rest: seq<Lexeme>)
    ensures ParseUnary([Lexeme(IntegerLiteral, Decimal(n))] + rest)
         == if n <= 9223372036854775807 then Ok(IntLit(n), rest) else Fail("Invalid integer literal")
  {
    DecimalReadsBack(n);
    PrimaryStep(Lexeme(IntegerLiteral, Decimal(n)), rest);
    Next(Lexeme(IntegerLiteral, Decimal(n)), rest);
  }

  /** Counts go up to 2^64 - 1. */
  lemma CountsRead(keyword: TokenType, expected: string, invalid: string, n: nat, rest: seq<Lexeme>)
    ensures ParseCount(keyword, expected, invalid,
                       [Lexeme(keyword, "")] + ([Lexeme(IntegerLiteral, Decimal(n))] + rest))
         == if n <= 18446744073709551615 then Ok(Some(n), rest) else Fail(invalid)
  {
    var count := Lexeme(IntegerLiteral, Decimal(n));
    DecimalReadsBack(n);
    Next(Lexeme(keyword, ""), [count] + rest);
    Next(count, rest);
  }

  /** A token that cannot begin an expression is refused at once. */
  lemma BeginningsRefused(ts: seq<Lexeme>)
    requires var kind := Kind(ts);
             && !kind.IntegerLiteral? && !kind.FloatLiteral? && !kind.StringLiteral? && !kind.True? && !kind.False?
             && !kind.Null? && !kind.Identifier? && !kind.Plus? && !kind.Minus? && !kind.Not? && !kind.LeftParen?
             && !kind.LeftBracket?
    ensures ParseExpression(ts) == Fail("Expected expression")
  {
  }

  /** Floats keep their text. */
  lemma FloatsRead(t: Lexeme, rest: seq<Lexeme>)
    requires t.kind.FloatLiteral?
    ensures ParseUnary([t] + rest) == Ok(FloatLit(t.value), rest)
  {
    PrimaryStep(t, rest);
    Next(t, rest);
  }

  // Whole inputs.

  lemma NothingRead()
    ensures ParseInput([]) == Ok(None, [])
  {
  }

  /** After a statement and its semicolon nothing may follow. */
  lemma TrailingRefused(s: Statement, t: Lexeme, more: seq<Lexeme>)
    requires StatementFits(s) && !t.kind.EoF?
    ensures ParseInput(PrintStatement(s, [Lexeme(Semicolon, ";")] + ([t] + more))) == Fail("Unexpected token")
  {
    hide ParseSelect, ParseInsert, ParseUpdate, ParseDelete, PrintStatement, StatementFits;
    var end := [Lexeme(Semicolon, ";")] + ([t] + more);
    Next(Lexeme(Semicolon, ";"), [t] + more);
    Next(t, more);
    if s.SelectStmt? {
      SelectParses(s, end);
    } else if s.InsertStmt? {
      InsertParses(s, end);
    } else if s.UpdateStmt? {
      UpdateParses(s, end);
    } else {
      DeleteParses(s, end);
    }
  }
}
