/** From a statement to its text and back: lexing and parsing what the statement formatter writes. */
module StatementText {
  import opened Wrappers
  import opened Tokens
  import opened Ast
  import opened Grammar
  import opened Lexing
  import opened Printing
  import opened Rendering
  import opened RoundTrip
  import opened Exactness
  import opened StatementExactness
  import opened StatementGrammar
  import opened StatementPrinting
  import opened StatementRoundTrip
  import opened TextRoundTrip

  /** Every name is an identifier to the lexer and every expression is writable. */
  ghost predicate StatementWritable(s: Statement) {
    match s
    case SelectStmt(collection, items, condition, groupBy, having, orderBy, _, _) =>
      && IsName(collection) && (forall item | item in items :: ItemWritable(item))
      && OptionWritable(condition) && (forall e | e in groupBy :: Writable(e)) && OptionWritable(having)
      && (forall item | item in orderBy :: Writable(item.expression))
    case InsertStmt(collection, columns, values) =>
      IsName(collection) && (forall c | c in columns :: IsName(c)) && forall e | e in values :: Writable(e)
    case UpdateStmt(collection, assignments, condition) =>
      && IsName(collection) && (forall a | a in assignments :: IsName(a.column) && Writable(a.value))
      && OptionWritable(condition)
    case DeleteStmt(collection, condition) => IsName(collection) && OptionWritable(condition)
  }

  ghost predicate ItemWritable(item: SelectItem) {
    item.ExprItem? ==> Writable(item.expression) && OptionIsName(item.alias)
  }

  ghost predicate OptionWritable(e: Option<Expr>) {
    e.Some? ==> Writable(e.value)
  }

  // The keywords of the statements.

  lemma SelectKeywords()
    ensures KeywordType("SELECT") == Select && KeywordType("FROM") == From && KeywordType("WHERE") == Where
  {
    UpperStays("SELECT");
    UpperStays("FROM");
    UpperStays("WHERE");
  }

  lemma GroupKeywords()
    ensures KeywordType("GROUP") == Group && KeywordType("BY") == By && KeywordType("HAVING") == Having
  {
    UpperStays("GROUP");
    UpperStays("BY");
    UpperStays("HAVING");
  }

  lemma OrderKeywords()
    ensures KeywordType("ORDER") == Order && KeywordType("ASC") == Asc && KeywordType("DESC") == Desc
  {
    UpperStays("ORDER");
    UpperStays("ASC");
    UpperStays("DESC");
  }

  lemma CountKeywords()
    ensures KeywordType("LIMIT") == Limit && KeywordType("OFFSET") == Offset && KeywordType("AS") == As
  {
    UpperStays("LIMIT");
    UpperStays("OFFSET");
    UpperStays("AS");
  }

  lemma InsertKeywords()
    ensures KeywordType("INSERT") == Insert && KeywordType("INTO") == Into && KeywordType("VALUES") == Values
  {
    UpperStays("INSERT");
    UpperStays("INTO");
    UpperStays("VALUES");
  }

  lemma UpdateKeywords()
    ensures KeywordType("UPDATE") == Update && KeywordType("SET") == Set && KeywordType("DELETE") == Delete
  {
    UpperStays("UPDATE");
    UpperStays("SET");
    UpperStays("DELETE");
  }

  /** A keyword with a space on either side. */
  lemma LexBetweenSpaces(keyword: Lexeme, spelled: string, rest: string)
    requires IsWord(keyword.value) && KeywordType(keyword.value) == keyword.kind
    requires spelled == " " + (keyword.value + " ")
    ensures Lexemes(spelled + rest) == [keyword] + Lexemes(rest)
    ensures Boundary(spelled + rest)
  {
    hide Lexemes, KeywordType, IsWord;
    LexSpaced(keyword, rest);
    LexSpace((keyword.value + " ") + rest);
    assert spelled + rest == " " + ((keyword.value + " ") + rest);
  }

  // Lists.

  ghost predicate Lexes<T(!new)>(
    render: (T, string) -> string, print_: (T, seq<Lexeme>) -> seq<Lexeme>, x: T, tail: string)
  {
    Lexemes(render(x, tail)) == print_(x, Lexemes(tail))
  }

  lemma {:induction false} LexSeparated<T(!new)>(
    render: (T, string) -> string, print_: (T, seq<Lexeme>) -> seq<Lexeme>, xs: seq<T>, rest: string)
    requires forall x, tail | x in xs && Boundary(tail) :: Lexes(render, print_, x, tail)
    requires Boundary(rest)
    ensures Lexemes(RenderSeparated(render, xs, rest)) == PrintSeparated(print_, xs, Lexemes(rest))
    decreases xs
  {
    hide Lexemes;
    if |xs| == 1 {
      assert Lexes(render, print_, xs[0], rest);
    } else if |xs| > 1 {
      var more := RenderSeparated(render, xs[1..], rest);
      LexSeparated(render, print_, xs[1..], rest);
      LexComma(more);
      assert Lexes(render, print_, xs[0], ", " + more);
    }
  }

  lemma LexItem(item: SelectItem, tail: string)
    requires ItemWritable(item) && Boundary(tail)
    ensures Lexes(RenderItem, PrintItem, item, tail)
  {
    hide Lexemes, Writable, KeywordType, IsWord, Print, Render;
    if item.StarItem? {
      LexSymbolText(Lexeme(Star, "*"), tail);
    } else if item.alias.Some? {
      CountKeywords();
      AsIsWord();
      LexName(item.alias.value, tail);
      LexBetweenSpaces(AS, " AS ", item.alias.value + tail);
      LexExpression(item.expression, " AS " + (item.alias.value + tail));
    } else {
      LexExpression(item.expression, tail);
    }
  }

  lemma AsIsWord()
    ensures IsWord("AS") && IsWord("FROM") && IsWord("BY") && IsWord("SET")
  {
  }

  lemma LexOrderItem(item: OrderByItem, tail: string)
    requires Writable(item.expression) && Boundary(tail)
    ensures Lexes(RenderOrderItem, PrintOrderItem, item, tail)
  {
    hide Lexemes, Writable, KeywordType, Print, Render;
    OrderKeywords();
    var direction := DirectionLexeme(item.direction);
    LexKeyword(direction, tail);
    LexSpace(direction.value + tail);
    var text := DirectionText(item.direction) + tail;
    assert text == " " + (direction.value + tail);
    LexExpression(item.expression, text);
  }

  lemma LexAssignment(a: Assignment, tail: string)
    requires IsName(a.column) && Writable(a.value) && Boundary(tail)
    ensures Lexes(RenderAssignment, PrintAssignment, a, tail)
  {
    hide Lexemes, Writable, KeywordType, IsWord, Print, Render;
    var value := Render(a.value, tail);
    LexExpression(a.value, tail);
    LexSpace(value);
    LexSymbolText(EQUALS, " " + value);
    LexSpace("=" + (" " + value));
    assert " = " + value == " " + ("=" + (" " + value));
    LexName(a.column, " = " + value);
  }

  // Clauses.

  lemma LexClause(keyword: Lexeme, spelled: string, e: Option<Expr>, rest: string)
    requires IsWord(keyword.value) && KeywordType(keyword.value) == keyword.kind
    requires spelled == " " + (keyword.value + " ") && OptionWritable(e) && Boundary(rest)
    ensures Lexemes(RenderClause(spelled, e, rest)) == PrintClause(keyword, e, Lexemes(rest))
    ensures Boundary(RenderClause(spelled, e, rest))
  {
    hide Lexemes, Writable, KeywordType, IsWord, Print, Render;
    if e.Some? {
      LexExpression(e.value, rest);
      LexBetweenSpaces(keyword, spelled, Render(e.value, rest));
    }
  }

  lemma LexGroupBy(es: seq<Expr>, rest: string)
    requires (forall e | e in es :: Writable(e)) && Boundary(rest)
    ensures Lexemes(RenderGroupBy(es, rest)) == PrintGroupBy(es, Lexemes(rest))
    ensures Boundary(RenderGroupBy(es, rest))
  {
    hide Lexemes, Writable, KeywordType, PrintList, RenderList;
    if es != [] {
      GroupKeywords();
      var list := RenderList(es, rest);
      LexList(es, rest);
      LexSpaced(BY, list);
      LexBetweenSpaces(Lexeme(Group, "GROUP"), " GROUP ", ("BY" + " ") + list);
      assert " GROUP BY " + list == " GROUP " + (("BY" + " ") + list);
    }
  }

  lemma LexOrderBy(items: seq<OrderByItem>, rest: string)
    requires (forall item | item in items :: Writable(item.expression)) && Boundary(rest)
    ensures Lexemes(RenderOrderBy(items, rest)) == PrintOrderBy(items, Lexemes(rest))
    ensures Boundary(RenderOrderBy(items, rest))
  {
    hide Lexemes, Writable, KeywordType, PrintSeparated, RenderSeparated, Lexes;
    if items != [] {
      OrderKeywords();
      GroupKeywords();
      var list := RenderSeparated(RenderOrderItem, items, rest);
      forall item, tail | item in items && Boundary(tail)
        ensures Lexes(RenderOrderItem, PrintOrderItem, item, tail)
      {
        LexOrderItem(item, tail);
      }
      LexSeparated(RenderOrderItem, PrintOrderItem, items, rest);
      LexSpaced(BY, list);
      LexBetweenSpaces(Lexeme(Order, "ORDER"), " ORDER ", ("BY" + " ") + list);
      assert " ORDER BY " + list == " ORDER " + (("BY" + " ") + list);
    }
  }

  lemma LexCount(keyword: Lexeme, spelled: string, n: Option<nat>, rest: string)
    requires IsWord(keyword.value) && KeywordType(keyword.value) == keyword.kind
    requires spelled == " " + (keyword.value + " ") && Boundary(rest)
    ensures Lexemes(RenderCount(spelled, n, rest)) == PrintCount(keyword, n, Lexemes(rest))
    ensures Boundary(RenderCount(spelled, n, rest))
  {
    hide Lexemes, KeywordType, IsWord;
    if n.Some? {
      LexNumberText(n.value, rest);
      LexBetweenSpaces(keyword, spelled, Decimal(n.value) + rest);
    }
  }

  lemma LexSelectTail(s: Statement, rest: string)
    requires s.SelectStmt? && StatementWritable(s) && Boundary(rest)
    ensures Lexemes(RenderSelectTail(s, rest)) == PrintSelectTail(s, Lexemes(rest))
    ensures Boundary(RenderSelectTail(s, rest))
  {
    hide Lexemes, Writable, KeywordType, RenderCount, PrintCount, RenderClause, PrintClause;
    hide RenderOrderBy, PrintOrderBy, RenderGroupBy, PrintGroupBy, Boundary;
    CountKeywords();
    GroupKeywords();
    SelectKeywords();
    var afterLimit := RenderCount(" OFFSET ", s.offset, rest);
    LexCount(OFFSET, " OFFSET ", s.offset, rest);
    var afterOrder := RenderCount(" LIMIT ", s.limit, afterLimit);
    LexCount(LIMIT, " LIMIT ", s.limit, afterLimit);
    var afterHaving := RenderOrderBy(s.orderBy, afterOrder);
    LexOrderBy(s.orderBy, afterOrder);
    var afterGroup := RenderClause(" HAVING ", s.having, afterHaving);
    LexClause(HAVING, " HAVING ", s.having, afterHaving);
    var afterWhere := RenderGroupBy(s.groupBy, afterGroup);
    LexGroupBy(s.groupBy, afterGroup);
    LexClause(WHERE, " WHERE ", s.where_, afterWhere);
  }

  // Statements.

  lemma LexSelect(s: Statement, rest: string)
    requires s.SelectStmt? && StatementWritable(s) && Boundary(rest)
    ensures Lexemes(RenderStatement(s, rest)) == PrintStatement(s, Lexemes(rest))
  {
    hide Lexemes, Writable, KeywordType, PrintSeparated, RenderSeparated, Lexes, RenderSelectTail, PrintSelectTail;
    SelectKeywords();
    var tail := RenderSelectTail(s, rest);
    LexSelectTail(s, rest);
    LexName(s.collection, tail);
    LexBetweenSpaces(FROM, " FROM ", s.collection + tail);
    var from := " FROM " + (s.collection + tail);
    forall item, tail | item in s.items && Boundary(tail)
      ensures Lexes(RenderItem, PrintItem, item, tail)
    {
      LexItem(item, tail);
    }
    LexSeparated(RenderItem, PrintItem, s.items, from);
    assert "SELECT" + " " == "SELECT ";
    LexSpaced(Lexeme(Select, "SELECT"), RenderSeparated(RenderItem, s.items, from));
  }

  lemma LexColumns(columns: seq<string>, rest: string)
    requires (forall c | c in columns :: IsName(c)) && Boundary(rest)
    ensures Lexemes(RenderColumns(columns, rest)) == PrintColumns(columns, Lexemes(rest))
    ensures Boundary(RenderColumns(columns, rest))
  {
    hide Lexemes, KeywordType, PrintSeparated, RenderSeparated, Lexes, IsName;
    if columns != [] {
      var close := ")" + rest;
      LexSymbolText(RPAREN, rest);
      forall c, tail | c in columns && Boundary(tail)
        ensures Lexes(RenderName, PrintName, c, tail)
      {
        LexColumnName(c, tail);
      }
      LexSeparated(RenderName, PrintName, columns, close);
      var list := RenderSeparated(RenderName, columns, close);
      LexSymbolText(LPAREN, list);
      LexSpace("(" + list);
      assert " (" + list == " " + ("(" + list);
    }
  }

  lemma AreWords()
    ensures IsWord("INSERT") && IsWord("INTO") && IsWord("VALUES")
  {
  }

  lemma LexColumnName(name: string, tail: string)
    requires IsName(name) && Boundary(tail)
    ensures Lexes(RenderName, PrintName, name, tail)
  {
    hide Lexemes, IsName;
    LexName(name, tail);
  }

  lemma LexInsert(s: Statement, rest: string)
    requires s.InsertStmt? && StatementWritable(s) && Boundary(rest)
    ensures Lexemes(RenderStatement(s, rest)) == PrintStatement(s, Lexemes(rest))
  {
    hide Lexemes, Writable, KeywordType, RenderColumns, PrintColumns, RenderList, PrintList, IsName, IsWord;
    InsertKeywords();
    AreWords();
    var list := RenderList(s.values, ")" + rest);
    LexSymbolText(RPAREN, rest);
    LexList(s.values, ")" + rest);
    LexSymbolText(LPAREN, list);
    LexBetweenSpaces(Lexeme(Values, "VALUES"), " VALUES ", "(" + list);
    var values := " VALUES (" + list;
    assert values == " VALUES " + ("(" + list);
    LexColumns(s.columns, values);
    var columns := RenderColumns(s.columns, values);
    LexName(s.collection, columns);
    LexSpaced(Lexeme(Into, "INTO"), s.collection + columns);
    LexSpaced(Lexeme(Insert, "INSERT"), ("INTO" + " ") + (s.collection + columns));
    assert "INSERT INTO " + (s.collection + columns) == ("INSERT" + " ") + (("INTO" + " ") + (s.collection + columns));
  }

  lemma LexUpdate(s: Statement, rest: string)
    requires s.UpdateStmt? && StatementWritable(s) && Boundary(rest)
    ensures Lexemes(RenderStatement(s, rest)) == PrintStatement(s, Lexemes(rest))
  {
    hide Lexemes, Writable, KeywordType, PrintSeparated, RenderSeparated, Lexes, RenderClause, PrintClause;
    UpdateKeywords();
    SelectKeywords();
    var condition := RenderClause(" WHERE ", s.where_, rest);
    LexClause(WHERE, " WHERE ", s.where_, rest);
    forall a, tail | a in s.assignments && Boundary(tail)
      ensures Lexes(RenderAssignment, PrintAssignment, a, tail)
    {
      LexAssignment(a, tail);
    }
    LexSeparated(RenderAssignment, PrintAssignment, s.assignments, condition);
    var list := RenderSeparated(RenderAssignment, s.assignments, condition);
    LexBetweenSpaces(Lexeme(Set, "SET"), " SET ", list);
    LexName(s.collection, " SET " + list);
    assert "UPDATE" + " " == "UPDATE ";
    LexSpaced(Lexeme(Update, "UPDATE"), s.collection + (" SET " + list));
  }

  lemma LexDelete(s: Statement, rest: string)
    requires s.DeleteStmt? && StatementWritable(s) && Boundary(rest)
    ensures Lexemes(RenderStatement(s, rest)) == PrintStatement(s, Lexemes(rest))
  {
    hide Lexemes, Writable, KeywordType, RenderClause, PrintClause;
    UpdateKeywords();
    SelectKeywords();
    var condition := RenderClause(" WHERE ", s.where_, rest);
    LexClause(WHERE, " WHERE ", s.where_, rest);
    LexName(s.collection, condition);
    LexSpaced(FROM, s.collection + condition);
    LexSpaced(Lexeme(Delete, "DELETE"), ("FROM" + " ") + (s.collection + condition));
    assert "DELETE FROM " + (s.collection + condition)
        == ("DELETE" + " ") + (("FROM" + " ") + (s.collection + condition));
  }

  /** Lexing a written statement gives its printed tokens, whatever follows. */
  lemma LexStatement(s: Statement, rest: string)
    requires StatementWritable(s) && Boundary(rest)
    ensures Lexemes(RenderStatement(s, rest)) == PrintStatement(s, Lexemes(rest))
  {
    hide Lexemes, RenderStatement, PrintStatement, StatementWritable;
    if s.SelectStmt? {
      LexSelect(s, rest);
    } else if s.InsertStmt? {
      LexInsert(s, rest);
    } else if s.UpdateStmt? {
      LexUpdate(s, rest);
    } else {
      LexDelete(s, rest);
    }
  }

  // Text in, tree out.

  /** Lexing and parsing the text of an expression gives the expression back exactly when it fits. */
  lemma ExpressionTextParses(e: Expr, rest: string)
    requires Writable(e) && Boundary(rest) && Ends(Free, Kind(Lexemes(rest)))
    ensures ParseExpression(Lexemes(Render(e, rest))) == Ok(e, Lexemes(rest)) <==> Fits(e, Free)
  {
    hide Lexemes, ParseExpression, Fits, Render;
    LexExpression(e, rest);
    WritableHasNoFloat(e);
    RoundTripExactly(e, Lexemes(rest));
  }

  lemma {:induction false} WritableHasNoFloat(e: Expr)
    requires Writable(e)
    ensures FloatFree(e)
  {
    match e
    case Unary(_, operand) => WritableHasNoFloat(operand);
    case Binary(_, left, right) => WritableHasNoFloat(left); WritableHasNoFloat(right);
    case FunctionCall(_, arguments) => forall a | a in arguments { WritableHasNoFloat(a); }
    case Vector(elements) => forall a | a in elements { WritableHasNoFloat(a); }
    case InExpr(left, values, _) => WritableHasNoFloat(left); forall a | a in values { WritableHasNoFloat(a); }
    case BetweenExpr(left, start, end, _) =>
      WritableHasNoFloat(left);
      WritableHasNoFloat(start);
      WritableHasNoFloat(end);
    case LikeExpr(left, pattern, _) => WritableHasNoFloat(left); WritableHasNoFloat(pattern);
    case _ =>
  }

  lemma WritableStatementHasNoFloat(s: Statement)
    requires StatementWritable(s)
    ensures StatementFloatFree(s)
  {
    hide Writable, FloatFree, IsName;
    forall e | Writable(e)
      ensures FloatFree(e)
    {
      WritableHasNoFloat(e);
    }
  }

  /** The text of a statement, with or without a semicolon, is read back as that statement exactly when it fits. */
  lemma StatementTextParses(s: Statement, end: string)
    requires StatementWritable(s) && (end == "" || end == ";")
    ensures ParseInput(Lexemes(RenderStatement(s, end))) == Ok(Some(s), []) <==> StatementFits(s)
  {
    hide ParseInput, RenderStatement, PrintStatement, StatementFits, StatementWritable, StatementFloatFree, LexSymbol;
    if end == ";" {
      SemicolonText();
    }
    LexStatement(s, end);
    WritableStatementHasNoFloat(s);
    StatementRoundTripExactly(s, Lexemes(end));
  }

  lemma SemicolonText()
    ensures Lexemes(";") == [Lexeme(Semicolon, ";")]
  {
    LexSymbolHead(";");
  }
}
