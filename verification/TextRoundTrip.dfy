/** Lexing what the formatters write gives back the tokens they stand for. */
module TextRoundTrip {
  import opened Wrappers
  import opened Tokens
  import opened Ast
  import opened Lexing
  import opened Printing
  import opened Rendering

  // One token at a time.

  predicate IsWord(w: string) {
    w != "" && StartsWord(w[0]) && forall i | 0 <= i < |w| :: IsAlnum(w[i])
  }

  predicate WordEnds(rest: string) {
    rest != "" ==> !IsAlnum(rest[0])
  }

  /** What may follow a printed expression: nothing that would extend its last name or number. */
  predicate Boundary(rest: string) {
    rest != "" ==> !IsAlnum(rest[0]) && rest[0] != '.'
  }

  lemma {:induction false} WordRead(w: string, rest: string)
    requires (forall i | 0 <= i < |w| :: IsAlnum(w[i])) && WordEnds(rest)
    ensures SkipWord(w + rest) == rest
  {
    if w == "" {
      assert w + rest == rest;
    } else {
      assert (w + rest)[1..] == w[1..] + rest;
      WordRead(w[1..], rest);
    }
  }

  lemma {:induction false} DigitsRead(w: string, rest: string)
    requires AllDigits(w) && (rest != "" ==> !IsDigit(rest[0]))
    ensures SkipDigits(w + rest) == rest
  {
    if w == "" {
      assert w + rest == rest;
    } else {
      assert (w + rest)[1..] == w[1..] + rest;
      DigitsRead(w[1..], rest);
    }
  }

  lemma LexHead(s: string)
    requires s != "" && !IsSpace(s[0])
    ensures Lexemes(s) == [LexOne(s).0] + Lexemes(LexOne(s).1)
  {
  }

  lemma LexWordText(w: string, rest: string)
    requires IsWord(w) && WordEnds(rest)
    ensures Lexemes(w + rest) == [Lexeme(KeywordType(w), w)] + Lexemes(rest)
  {
    WordRead(w, rest);
    assert Taken(w + rest, rest) == w;
    assert (w + rest)[0] == w[0];
    LexHead(w + rest);
  }

  lemma LexNumberText(n: nat, rest: string)
    requires Boundary(rest)
    ensures Lexemes(Decimal(n) + rest) == [Lexeme(IntegerLiteral, Decimal(n))] + Lexemes(rest)
  {
    hide Lexemes, Decimal, DigitsValue, LexWord, LexString, LexSymbol;
    var w := Decimal(n);
    DecimalReadsBack(n);
    DigitsRead(w, rest);
    assert Taken(w + rest, rest) == w;
    assert IsDigit((w + rest)[0]);
    LexHead(w + rest);
  }

  lemma LexSpace(rest: string)
    ensures Lexemes(" " + rest) == Lexemes(rest)
  {
    assert (" " + rest)[1..] == rest;
  }

  predicate IsSymbolChar(c: char) {
    !IsSpace(c) && !StartsWord(c) && !IsDigit(c) && c != '\'' && c != '"'
  }

  lemma LexSymbolHead(s: string)
    requires s != "" && IsSymbolChar(s[0])
    ensures Lexemes(s) == [LexSymbol(s).0] + Lexemes(LexSymbol(s).1)
  {
    hide LexSymbol, LexWord, LexNumber, LexString;
    LexHead(s);
  }

  ghost predicate IsSeparator(t: Lexeme) {
    t in [LPAREN, RPAREN, LBRACKET, RBRACKET, COMMA, DOT]
  }

  ghost predicate IsSign(t: Lexeme) {
    t in [Lexeme(Plus, "+"), Lexeme(Minus, "-"), Lexeme(Star, "*"), Lexeme(Slash, "/"), Lexeme(Modulo, "%"),
          Lexeme(Equal, "=")]
  }

  ghost predicate IsSymbol(t: Lexeme) {
    IsSeparator(t) || IsSign(t)
  }

  lemma SeparatorRead(t: Lexeme, s: string)
    requires IsSeparator(t) && s != "" && |t.value| == 1 && s[0] == t.value[0]
    ensures IsSymbolChar(s[0]) && LexSymbol(s) == (t, s[1..])
  {
  }

  lemma SignRead(t: Lexeme, s: string)
    requires IsSign(t) && s != "" && |t.value| == 1 && s[0] == t.value[0]
    ensures IsSymbolChar(s[0]) && LexSymbol(s) == (t, s[1..])
  {
  }

  lemma LexSymbolText(t: Lexeme, rest: string)
    requires IsSymbol(t)
    ensures Lexemes(t.value + rest) == [t] + Lexemes(rest)
  {
    hide Lexemes, LexSymbol;
    var s := t.value + rest;
    assert |t.value| == 1;
    assert s[0] == t.value[0] && s[1..] == rest;
    if IsSeparator(t) {
      SeparatorRead(t, s);
    } else {
      SignRead(t, s);
    }
    LexSymbolHead(s);
  }

  /** A comparison sign of one or two characters, with a space after it. */
  lemma LexComparisonText(t: Lexeme, rest: string)
    requires t in [Lexeme(NotEqual, "!="), Lexeme(LessThan, "<"), Lexeme(GreaterThan, ">"),
                   Lexeme(LessEqual, "<="), Lexeme(GreaterEqual, ">=")]
    requires HeadIs(rest, ' ')
    ensures Lexemes(t.value + rest) == [t] + Lexemes(rest)
  {
    hide Lexemes, LexOne;
    var s := t.value + rest;
    assert s[0] == t.value[0] && s[|t.value|..] == rest;
    if |t.value| == 2 {
      assert s[1] == t.value[1] && s[1..][1..] == rest;
    } else {
      assert s[1..] == rest;
    }
    LexSymbolHead(s);
  }

  // Strings.

  predicate Clean(s: string) {
    forall i | 0 <= i < |s| :: s[i] != '\'' && s[i] != '\\' && s[i] != '\n' && s[i] != '\r'
  }

  lemma {:induction false} CleanScans(v: string, s: string, rest: string)
    requires Clean(s)
    ensures ScanString('\'', v, Escape(s) + ("'" + rest), false) == Scan(true, v + s, rest)
    decreases s
  {
    var text := Escape(s) + ("'" + rest);
    if s == "" {
      assert text == "'" + rest && text[1..] == rest && v + s == v;
    } else {
      assert text[0] == s[0] && text[1..] == Escape(s[1..]) + ("'" + rest);
      CleanScans(v + [s[0]], s[1..], rest);
      assert v + [s[0]] + s[1..] == v + s;
    }
  }

  lemma LexQuoted(s: string)
    requires s != "" && s[0] == '\''
    ensures Lexemes(s) == [LexString(s).0] + Lexemes(LexString(s).1)
  {
    hide LexSymbol, LexWord, LexNumber, LexString;
    LexHead(s);
  }

  lemma LexStringText(s: string, rest: string)
    requires Clean(s)
    ensures Lexemes("'" + (Escape(s) + ("'" + rest))) == [Lexeme(StringLiteral, s)] + Lexemes(rest)
  {
    var text := "'" + (Escape(s) + ("'" + rest));
    assert text[0] == '\'' && text[1..] == Escape(s) + ("'" + rest);
    CleanScans("", s, rest);
    assert "" + s == s;
    LexQuoted(text);
  }

  lemma {:induction false} ScanKeepsEnd(quote: char, v: string, s: string, escaped: bool)
    ensures var rest := ScanString(quote, v, s, escaped).rest;
            rest != "" ==> s != "" && rest[|rest| - 1] == s[|s| - 1]
    decreases |s|
  {
    if s != "" {
      if escaped {
        ScanKeepsEnd(quote, v + [Unescape(s[0])], Step(s), false);
      } else if s[0] == '\\' {
        ScanKeepsEnd(quote, v, s[1..], true);
      } else if s[0] != quote && s[0] != '\n' && s[0] != '\r' {
        ScanKeepsEnd(quote, v + [s[0]], s[1..], false);
      }
    }
  }

  lemma {:induction false} NotBlank(s: string)
    requires s != "" && !IsSpace(s[|s| - 1])
    ensures Lexemes(s) != []
  {
    NotAllSpaces(s);
  }

  lemma {:induction false} NotAllSpaces(s: string)
    requires s != "" && !IsSpace(s[|s| - 1])
    ensures SkipSpaces(s) != ""
  {
    if IsSpace(s[0]) {
      NotAllSpaces(s[1..]);
    }
  }

  /** A doubled quote is not an escape to the lexer: the string ends there, with more text to come. */
  lemma DoubledQuoteCloses(v: string, s: string, escaped: bool)
    requires s != "" && s[0] == '\''
    ensures ScanString('\'', v, Escape(s) + "'", escaped).rest != ""
  {
    var text := Escape(s) + "'";
    var rest := Escape(s[1..]) + "'";
    assert text == "''" + rest && text[1..] == "'" + rest && text[1..][1..] == rest;
  }

  /** A string literal that closes at the very end of the text has lost every backslash that escaped. */
  lemma {:induction false} ScanShrinks(v: string, s: string, escaped: bool)
    requires ScanString('\'', v, Escape(s) + "'", escaped).closed
    requires ScanString('\'', v, Escape(s) + "'", escaped).rest == ""
    ensures |ScanString('\'', v, Escape(s) + "'", escaped).value| <= |v| + |s|
    ensures !escaped && |ScanString('\'', v, Escape(s) + "'", escaped).value| == |v| + |s| ==> Clean(s)
    decreases s
  {
    var text := Escape(s) + "'";
    if s == "" {
      assert text == "'";
    } else if s[0] == '\'' {
      DoubledQuoteCloses(v, s, escaped);
    } else {
      assert text[0] == s[0] && text[1..] == Escape(s[1..]) + "'";
      if escaped {
        if Step(text) == text[1..] {
          ScanShrinks(v + [Unescape(s[0])], s[1..], false);
        } else {
          assert text[1] == s[1] && text[2..] == Escape(s[2..]) + "'";
          ScanShrinks(v + [Unescape(s[0])], s[2..], false);
        }
      } else if s[0] == '\\' {
        ScanShrinks(v, s[1..], true);
      } else {
        ScanShrinks(v + [s[0]], s[1..], false);
      }
    }
  }

  /**
   * Writing a string literal and lexing it gives one token with the same value exactly when the string holds
   * no quote, no backslash and no line break.
   */
  lemma StringRoundTrip(s: string)
    ensures Lexemes("'" + Escape(s) + "'") == [Lexeme(StringLiteral, s)] <==> Clean(s)
  {
    var text := "'" + Escape(s) + "'";
    if Clean(s) {
      LexStringText(s, "");
      assert text == "'" + (Escape(s) + ("'" + ""));
    } else if Lexemes(text) == [Lexeme(StringLiteral, s)] {
      assert text[0] == '\'' && text[1..] == Escape(s) + "'";
      LexQuoted(text);
      assert LexString(text).0 == Lexemes(text)[0] && Lexemes(LexString(text).1) == Lexemes(text)[1..];
      var scan := ScanString('\'', "", text[1..], false);
      assert scan.closed && scan.value == s;
      ScanKeepsEnd('\'', "", text[1..], false);
      if scan.rest == "" {
        ScanShrinks("", s, false);
      } else {
        NotBlank(scan.rest);
      }
    }
  }

  // Keywords, spelled as the formatters spell them.

  lemma LexKeyword(t: Lexeme, rest: string)
    requires IsWord(t.value) && KeywordType(t.value) == t.kind && WordEnds(rest)
    ensures Lexemes(t.value + rest) == [t] + Lexemes(rest)
  {
    hide Lexemes, KeywordType;
    LexWordText(t.value, rest);
  }

  lemma UpperStays(s: string)
    requires forall i | 0 <= i < |s| :: !('a' <= s[i] <= 'z')
    ensures ToUpper(s) == s
  {
  }

  lemma LogicKeywords()
    ensures KeywordType("AND") == And && KeywordType("OR") == Or && KeywordType("NOT") == Not
  {
    UpperStays("AND");
    UpperStays("OR");
    UpperStays("NOT");
  }

  lemma PredicateKeywords()
    ensures KeywordType("IN") == In && KeywordType("LIKE") == Like && KeywordType("BETWEEN") == Between
  {
    UpperStays("IN");
    UpperStays("LIKE");
    UpperStays("BETWEEN");
  }

  lemma ConstantKeywords()
    ensures KeywordType("NULL") == Null && KeywordType("TRUE") == True && KeywordType("FALSE") == False
  {
    UpperStays("NULL");
    UpperStays("TRUE");
    UpperStays("FALSE");
  }

  /** A name the lexer reads as an identifier. */
  predicate IsName(name: string) {
    IsWord(name) && KeywordType(name) == Identifier
  }

  predicate OptionIsName(name: Option<string>) {
    name.Some? ==> IsName(name.value)
  }

  /** Names are identifiers, strings need no escape the lexer lacks, and there are no floats. */
  ghost predicate Writable(e: Expr)
    decreases e
  {
    match e
    case FloatLit(_) => false
    case StringLit(s) => Clean(s)
    case ColumnRef(database, collection, column) =>
      OptionIsName(database) && OptionIsName(collection) && IsName(column)
    case Unary(_, operand) => Writable(operand)
    case Binary(_, left, right) => Writable(left) && Writable(right)
    case FunctionCall(name, arguments) => IsName(name) && forall a | a in arguments :: Writable(a)
    case Vector(elements) => forall a | a in elements :: Writable(a)
    case InExpr(left, values, _) => Writable(left) && forall a | a in values :: Writable(a)
    case BetweenExpr(left, start, end, _) => Writable(left) && Writable(start) && Writable(end)
    case LikeExpr(left, pattern, _) => Writable(left) && Writable(pattern)
    case _ => true
  }

  lemma LexOperator(op: BinaryOp, rest: string)
    requires HeadIs(rest, ' ')
    ensures Lexemes(OperatorText(op) + rest) == [OperatorLexeme(op)] + Lexemes(rest)
  {
    hide Lexemes, KeywordType;
    LogicKeywords();
    match op
    case OpAnd | OpOr => LexKeyword(OperatorLexeme(op), rest);
    case OpNotEqual | OpLessThan | OpGreaterThan | OpLessEqual | OpGreaterEqual =>
      LexComparisonText(OperatorLexeme(op), rest);
    case _ => LexSymbolText(OperatorLexeme(op), rest);
  }

  lemma LexUnary(op: UnaryOp, rest: string)
    ensures Lexemes(UnaryText(op) + rest) == [UnaryLexeme(op)] + Lexemes(rest)
  {
    hide Lexemes, KeywordType;
    if op == UnaryNot {
      LogicKeywords();
      LexKeyword(NOT, " " + rest);
      LexSpace(rest);
      assert "NOT " + rest == "NOT" + (" " + rest);
    } else {
      LexSymbolText(UnaryLexeme(op), rest);
    }
  }

  lemma LexInteger(n: int, rest: string)
    requires Boundary(rest)
    ensures Lexemes(IntegerText(n) + rest) == Print(IntLit(n), Lexemes(rest))
  {
    hide Lexemes;
    if n >= 0 {
      LexNumberText(n, rest);
    } else {
      LexNumberText(-n, rest);
      LexSymbolText(Lexeme(Minus, "-"), Decimal(-n) + rest);
      assert IntegerText(n) + rest == "-" + (Decimal(-n) + rest);
    }
  }

  lemma LexName(name: string, rest: string)
    requires IsName(name) && WordEnds(rest)
    ensures Lexemes(name + rest) == [Name(name)] + Lexemes(rest)
  {
    hide Lexemes, KeywordType;
    LexWordText(name, rest);
  }

  lemma LexQualifier(name: Option<string>, rest: string)
    requires OptionIsName(name)
    ensures Lexemes(Qualify(name, rest)) == Prefix(name, Lexemes(rest))
  {
    hide Lexemes, KeywordType;
    if name.Some? {
      LexName(name.value, "." + rest);
      LexSymbolText(DOT, rest);
    }
  }

  lemma LexSpaced(keyword: Lexeme, rest: string)
    requires IsWord(keyword.value) && KeywordType(keyword.value) == keyword.kind
    ensures Lexemes((keyword.value + " ") + rest) == [keyword] + Lexemes(rest)
  {
    hide Lexemes, KeywordType;
    LexKeyword(keyword, " " + rest);
    LexSpace(rest);
    assert (keyword.value + " ") + rest == keyword.value + (" " + rest);
  }

  lemma LexNegated(isNot: bool, rest: string)
    ensures Lexemes(" " + Negate(isNot, rest)) == Negation(isNot, Lexemes(rest))
  {
    hide Lexemes, KeywordType;
    LexSpace(Negate(isNot, rest));
    if isNot {
      LogicKeywords();
      assert "NOT" + " " == "NOT ";
      LexSpaced(NOT, rest);
    }
  }

  /** Lexing a written expression gives its printed tokens, whatever follows. */
  lemma {:induction false} LexExpression(e: Expr, rest: string)
    requires Writable(e) && Boundary(rest)
    ensures Lexemes(Render(e, rest)) == Print(e, Lexemes(rest))
    decreases e, 1
  {
    hide Lexemes, KeywordType, IsWord;
    match e
    case IntLit(n) => LexInteger(n, rest);
    case StringLit(s) => LexStringText(s, rest);
    case BoolLit(b) => LexConstant(e, rest);
    case NullLit => LexConstant(e, rest);
    case ColumnRef(database, collection, column) =>
      LexName(column, rest);
      LexQualifier(collection, column + rest);
      LexQualifier(database, Qualify(collection, column + rest));
    case Unary(op, operand) =>
      LexExpression(operand, rest);
      LexUnary(op, Render(operand, rest));
    case Binary(op, left, right) => LexBinary(e, rest);
    case FunctionCall(name, arguments) =>
      var list := RenderList(arguments, ")" + rest);
      LexSymbolText(RPAREN, rest);
      LexList(arguments, ")" + rest);
      LexSymbolText(LPAREN, list);
      LexName(name, "(" + list);
    case Vector(elements) =>
      LexSymbolText(RBRACKET, rest);
      LexList(elements, "]" + rest);
      LexSymbolText(LBRACKET, RenderList(elements, "]" + rest));
    case InExpr(left, values, isNot) => LexIn(e, rest);
    case BetweenExpr(left, start, end, isNot) => LexBetween(e, rest);
    case LikeExpr(left, pattern, isNot) => LexLike(e, rest);
  }

  lemma LexConstant(e: Expr, rest: string)
    requires (e.BoolLit? || e.NullLit?) && Boundary(rest)
    ensures Lexemes(Render(e, rest)) == Print(e, Lexemes(rest))
  {
    hide Lexemes, KeywordType;
    ConstantKeywords();
    if e.NullLit? {
      LexKeyword(Lexeme(Null, "NULL"), rest);
    } else if e.b {
      LexKeyword(Lexeme(True, "TRUE"), rest);
    } else {
      LexKeyword(Lexeme(False, "FALSE"), rest);
    }
  }

  lemma {:induction false} LexBinary(e: Expr, rest: string)
    requires e.Binary? && Writable(e.left) && Writable(e.right)
    ensures Lexemes(Render(e, rest)) == Print(e, Lexemes(rest))
    decreases e, 0
  {
    hide Lexemes, Writable;
    var right := Render(e.right, ")" + rest);
    LexSymbolText(RPAREN, rest);
    LexExpression(e.right, ")" + rest);
    LexSpace(right);
    LexOperator(e.bop, " " + right);
    var tail := OperatorText(e.bop) + (" " + right);
    LexSpace(tail);
    LexExpression(e.left, " " + tail);
    LexSymbolText(LPAREN, Render(e.left, " " + tail));
  }

  /** The left side of a predicate, and the NOT before its keyword. */
  lemma {:induction false} LexPredicate(left: Expr, isNot: bool, keyword: Lexeme, spelled: string, rest: string)
    requires Writable(left) && IsWord(keyword.value) && KeywordType(keyword.value) == keyword.kind
    requires spelled == keyword.value + " "
    ensures Lexemes(Render(left, " " + Negate(isNot, spelled + rest)))
         == Print(left, Negation(isNot, [keyword] + Lexemes(rest)))
    decreases left, 2
  {
    hide Lexemes, Writable, KeywordType;
    LexSpaced(keyword, rest);
    LexNegated(isNot, spelled + rest);
    LexExpression(left, " " + Negate(isNot, spelled + rest));
  }

  lemma {:induction false} LexIn(e: Expr, rest: string)
    requires e.InExpr? && Writable(e.left) && forall a | a in e.values :: Writable(a)
    ensures Lexemes(Render(e, rest)) == Print(e, Lexemes(rest))
    decreases e, 0
  {
    hide Lexemes, Writable, KeywordType;
    var list := RenderList(e.values, ")" + rest);
    LexSymbolText(RPAREN, rest);
    LexList(e.values, ")" + rest);
    LexSymbolText(LPAREN, list);
    PredicateKeywords();
    LexPredicate(e.left, e.isNot, IN, "IN ", "(" + list);
  }

  lemma {:induction false} LexBetween(e: Expr, rest: string)
    requires e.BetweenExpr? && Writable(e.left) && Writable(e.start) && Writable(e.end) && Boundary(rest)
    ensures Lexemes(Render(e, rest)) == Print(e, Lexemes(rest))
    decreases e, 0
  {
    hide Lexemes, Writable, KeywordType;
    LogicKeywords();
    PredicateKeywords();
    var end := Render(e.end, rest);
    LexExpression(e.end, rest);
    LexSpaced(Lexeme(And, "AND"), end);
    LexSpace("AND " + end);
    assert " AND " + end == " " + ("AND " + end) && "AND" + " " == "AND ";
    LexExpression(e.start, " AND " + end);
    LexPredicate(e.left, e.isNot, Lexeme(Between, "BETWEEN"), "BETWEEN ", Render(e.start, " AND " + end));
  }

  lemma {:induction false} LexLike(e: Expr, rest: string)
    requires e.LikeExpr? && Writable(e.left) && Writable(e.pattern) && Boundary(rest)
    ensures Lexemes(Render(e, rest)) == Print(e, Lexemes(rest))
    decreases e, 0
  {
    hide Lexemes, Writable, KeywordType;
    PredicateKeywords();
    LexExpression(e.pattern, rest);
    LexPredicate(e.left, e.isNot, Lexeme(Like, "LIKE"), "LIKE ", Render(e.pattern, rest));
  }

  lemma {:induction false} LexList(es: seq<Expr>, rest: string)
    requires (forall a | a in es :: Writable(a)) && Boundary(rest)
    ensures Lexemes(RenderList(es, rest)) == PrintList(es, Lexemes(rest))
    decreases es
  {
    hide Lexemes, Writable;
    if |es| == 1 {
      LexExpression(es[0], rest);
    } else if |es| > 1 {
      var more := RenderList(es[1..], rest);
      LexList(es[1..], rest);
      LexComma(more);
      LexExpression(es[0], ", " + more);
    }
  }

  lemma LexComma(rest: string)
    ensures Lexemes(", " + rest) == [COMMA] + Lexemes(rest)
  {
    hide Lexemes;
    LexSpace(rest);
    LexSymbolText(COMMA, " " + rest);
    assert ", " + rest == "," + (" " + rest);
  }
}
