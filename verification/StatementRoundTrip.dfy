/** Statements whose printed tokens the parser reads back unchanged. */
module StatementRoundTrip {
  import opened Wrappers
  import opened Tokens
  import opened Ast
  import opened Grammar
  import opened Printing
  import opened RoundTrip
  import opened StatementGrammar
  import opened StatementPrinting

  ghost predicate ItemFits(item: SelectItem) {
    item.ExprItem? ==> Fits(item.expression, Free)
  }

  ghost predicate OptionFits(e: Option<Expr>) {
    e.Some? ==> Fits(e.value, Free)
  }

  ghost predicate CountFits(n: Option<nat>) {
    n.Some? ==> n.value <= MAX_UINT64
  }

  ghost predicate AllFit(es: seq<Expr>) {
    forall e | e in es :: Fits(e, Free)
  }

  /** Every expression fits, counts are 64-bit, and the lists a statement cannot do without are not empty. */
  ghost predicate StatementFits(s: Statement) {
    match s
    case SelectStmt(_, items, condition, groupBy, having, orderBy, limit, offset) =>
      && items != [] && (forall item | item in items :: ItemFits(item))
      && OptionFits(condition) && AllFit(groupBy) && OptionFits(having)
      && (forall item | item in orderBy :: Fits(item.expression, Free))
      && CountFits(limit) && CountFits(offset)
    case InsertStmt(_, _, values) => values != [] && AllFit(values)
    case UpdateStmt(_, assignments, condition) =>
      assignments != [] && (forall a | a in assignments :: Fits(a.value, Free)) && OptionFits(condition)
    case DeleteStmt(_, condition) => OptionFits(condition)
  }

  /** The item parser reads a printed item and stops where it ends. */
  ghost predicate Reads<T(!new)>(
    item: ItemParser<T>, print_: (T, seq<Lexeme>) -> seq<Lexeme>, x: T, tail: seq<Lexeme>)
  {
    item(print_(x, tail)) == Ok(x, tail)
  }

  lemma {:induction false} SeparatedParses<T(!new)>(
    item: ItemParser<T>, print_: (T, seq<Lexeme>) -> seq<Lexeme>, xs: seq<T>, rest: seq<Lexeme>)
    requires Progresses(item) && xs != [] && !Kind(rest).Comma?
    requires forall x, tail | x in xs && (Kind(tail).Comma? || tail == rest) :: Reads(item, print_, x, tail)
    ensures ParseSeparated(item, PrintSeparated(print_, xs, rest)) == Ok(xs, rest)
    decreases xs
  {
    if |xs| == 1 {
      assert Reads(item, print_, xs[0], rest);
      assert xs == [xs[0]];
    } else {
      var more := PrintSeparated(print_, xs[1..], rest);
      Next(COMMA, more);
      assert Reads(item, print_, xs[0], [COMMA] + more);
      SeparatedParses(item, print_, xs[1..], rest);
      assert xs == [xs[0]] + xs[1..];
    }
  }

  lemma ItemReads(item: SelectItem, tail: seq<Lexeme>)
    requires ItemFits(item) && (Kind(tail).Comma? || Kind(tail).From?)
    ensures Reads(ParseSelectItem, PrintItem, item, tail)
  {
    hide ParseExpression, Print, Fits, Ends, StartsExpression;
    if item.StarItem? {
      Next(Lexeme(Star, "*"), tail);
    } else {
      var after := PrintAlias(item.alias, tail);
      if item.alias.Some? {
        Next(AS, PrintName(item.alias.value, tail));
        Next(Name(item.alias.value), tail);
      }
      StopEnds(Kind(after));
      FreeParses(item.expression, after);
      NotStar(item.expression, after);
    }
  }

  lemma StopEnds(kind: TokenType)
    ensures kind.Comma? || kind.From? || kind.As? ==> Ends(Free, kind)
  {
  }

  lemma NotStar(e: Expr, rest: seq<Lexeme>)
    ensures !Kind(Print(e, rest)).Star?
  {
    hide Print;
    StartsPrinted(e, rest);
  }

  lemma OrderItemReads(item: OrderByItem, tail: seq<Lexeme>)
    requires Fits(item.expression, Free)
    ensures Reads(ParseOrderItem, PrintOrderItem, item, tail)
  {
    Next(DirectionLexeme(item.direction), tail);
    FreeParses(item.expression, [DirectionLexeme(item.direction)] + tail);
  }

  lemma AssignmentReads(a: Assignment, tail: seq<Lexeme>)
    requires Fits(a.value, Free) && Ends(Free, Kind(tail))
    ensures Reads(ParseAssignment, PrintAssignment, a, tail)
  {
    Next(Name(a.column), [EQUALS] + Print(a.value, tail));
    Next(EQUALS, Print(a.value, tail));
    FreeParses(a.value, tail);
  }

  lemma NameReads(name: string, tail: seq<Lexeme>)
    ensures Reads(ParseColumnName, PrintName, name, tail)
  {
    Next(Name(name), tail);
  }

  // The clauses of a statement.  What may follow one is a later clause or the end.

  /** The tokens that can start what follows a clause: the rank of each clause, and the end of the input last. */
  function ClauseRank(kind: TokenType): nat {
    if kind.Where? then 1 else if kind.Group? then 2 else if kind.Having? then 3 else if kind.Order? then 4
    else if kind.Limit? then 5 else if kind.Offset? then 6 else if kind.Semicolon? || kind.EoF? then 7 else 0
  }

  lemma ClauseParses(keyword: Lexeme, e: Option<Expr>, rest: seq<Lexeme>)
    requires OptionFits(e) && ClauseRank(keyword.kind) > 0 && ClauseRank(Kind(rest)) > ClauseRank(keyword.kind)
    ensures ParseClause(keyword.kind, PrintClause(keyword, e, rest)) == Ok(e, rest)
    ensures ClauseRank(Kind(PrintClause(keyword, e, rest))) >= ClauseRank(keyword.kind)
  {
    if e.Some? {
      Next(keyword, Print(e.value, rest));
      FreeParses(e.value, rest);
    }
  }

  lemma GroupByParses(es: seq<Expr>, rest: seq<Lexeme>)
    requires AllFit(es) && ClauseRank(Kind(rest)) > 2
    ensures ParseGroupBy(PrintGroupBy(es, rest)) == Ok(es, rest)
    ensures ClauseRank(Kind(PrintGroupBy(es, rest))) >= 2
  {
    hide ParseList, PrintList, Fits, Text;
    if es != [] {
      Next(Lexeme(Group, "GROUP"), [BY] + PrintList(es, rest));
      Next(BY, PrintList(es, rest));
      ListParses(es, rest);
    }
  }

  lemma OrderByParses(items: seq<OrderByItem>, rest: seq<Lexeme>)
    requires (forall item | item in items :: Fits(item.expression, Free)) && ClauseRank(Kind(rest)) > 4
    ensures ParseOrderBy(PrintOrderBy(items, rest)) == Ok(items, rest)
    ensures ClauseRank(Kind(PrintOrderBy(items, rest))) >= 4
  {
    hide ParseSeparated, PrintSeparated, Fits;
    if items != [] {
      Next(Lexeme(Order, "ORDER"), [BY] + PrintSeparated(PrintOrderItem, items, rest));
      Next(BY, PrintSeparated(PrintOrderItem, items, rest));
      forall item, tail | item in items && (Kind(tail).Comma? || tail == rest)
        ensures Reads(ParseOrderItem, PrintOrderItem, item, tail)
      {
        OrderItemReads(item, tail);
      }
      SeparatedParses(ParseOrderItem, PrintOrderItem, items, rest);
    }
  }

  lemma CountParses(keyword: Lexeme, expected: string, invalid: string, n: Option<nat>, rest: seq<Lexeme>)
    requires CountFits(n) && ClauseRank(keyword.kind) > 0 && ClauseRank(Kind(rest)) > ClauseRank(keyword.kind)
    ensures ParseCount(keyword.kind, expected, invalid, PrintCount(keyword, n, rest)) == Ok(n, rest)
    ensures ClauseRank(Kind(PrintCount(keyword, n, rest))) >= ClauseRank(keyword.kind)
  {
    hide Decimal, DigitsValue, AllDigits;
    if n.Some? {
      var numeral := Lexeme(IntegerLiteral, Decimal(n.value));
      Next(keyword, [numeral] + rest);
      Next(numeral, rest);
      DecimalReadsBack(n.value);
    }
  }

  /** The clauses of a SELECT after its collection. */
  ghost function ParseTail(s: Statement, ts: seq<Lexeme>): Parse<Statement>
    requires s.SelectStmt?
  {
    var (condition, rest) :- ParseClause(Where, ts);
    var (groupBy, rest) :- ParseGroupBy(rest);
    var (having, rest) :- ParseClause(Having, rest);
    var (orderBy, rest) :- ParseOrderBy(rest);
    var (limit, rest) :-
      ParseCount(Limit, "Expected integer literal after LIMIT", "Invalid integer literal for LIMIT", rest);
    var (offset, rest) :-
      ParseCount(Offset, "Expected integer literal after OFFSET", "Invalid integer literal for OFFSET", rest);
    Ok(SelectStmt(s.collection, s.items, condition, groupBy, having, orderBy, limit, offset), rest)
  }

  lemma TailParses(s: Statement, rest: seq<Lexeme>)
    requires s.SelectStmt? && StatementFits(s) && ClauseRank(Kind(rest)) == 7
    ensures ParseTail(s, PrintSelectTail(s, rest)) == Ok(s, rest)
  {
    hide ParseClause, PrintClause, ParseGroupBy, PrintGroupBy, ParseOrderBy, PrintOrderBy, ParseCount, PrintCount, Fits;
    var afterLimit := PrintCount(OFFSET, s.offset, rest);
    CountParses(OFFSET, "Expected integer literal after OFFSET", "Invalid integer literal for OFFSET", s.offset, rest);
    var afterOrder := PrintCount(LIMIT, s.limit, afterLimit);
    CountParses(LIMIT, "Expected integer literal after LIMIT", "Invalid integer literal for LIMIT",
                s.limit, afterLimit);
    var afterHaving := PrintOrderBy(s.orderBy, afterOrder);
    OrderByParses(s.orderBy, afterOrder);
    var afterGroup := PrintClause(HAVING, s.having, afterHaving);
    ClauseParses(HAVING, s.having, afterHaving);
    var afterWhere := PrintGroupBy(s.groupBy, afterGroup);
    GroupByParses(s.groupBy, afterGroup);
    ClauseParses(WHERE, s.where_, afterWhere);
  }

  lemma SelectParses(s: Statement, rest: seq<Lexeme>)
    requires s.SelectStmt? && StatementFits(s) && ClauseRank(Kind(rest)) == 7
    ensures Kind(PrintStatement(s, rest)).Select?
    ensures ParseSelect(PrintStatement(s, rest)) == Ok(s, rest)
  {
    hide ParseClause, ParseGroupBy, ParseOrderBy, ParseCount, ParseSeparated;
    hide PrintSeparated, PrintSelectTail, StatementFits;
    var afterName := PrintSelectTail(s, rest);
    TailParses(s, rest);
    SelectHeadParses(s, afterName);
    Next(Lexeme(Select, "SELECT"), PrintSeparated(PrintItem, s.items, [FROM] + PrintName(s.collection, afterName)));
    Next(FROM, PrintName(s.collection, afterName));
    Next(Name(s.collection), afterName);
  }

  lemma SelectHeadParses(s: Statement, afterName: seq<Lexeme>)
    requires s.SelectStmt? && StatementFits(s)
    ensures var rest := [FROM] + PrintName(s.collection, afterName);
            ParseSeparated(ParseSelectItem, PrintSeparated(PrintItem, s.items, rest)) == Ok(s.items, rest)
  {
    var rest := [FROM] + PrintName(s.collection, afterName);
    Next(FROM, PrintName(s.collection, afterName));
    forall item, tail | item in s.items && (Kind(tail).Comma? || tail == rest)
      ensures Reads(ParseSelectItem, PrintItem, item, tail)
    {
      ItemReads(item, tail);
    }
    SeparatedParses(ParseSelectItem, PrintItem, s.items, rest);
  }

  lemma InsertParses(s: Statement, rest: seq<Lexeme>)
    requires s.InsertStmt? && StatementFits(s)
    ensures Kind(PrintStatement(s, rest)).Insert?
    ensures ParseInsert(PrintStatement(s, rest)) == Ok(s, rest)
  {
    hide ParseList, PrintList, ParseColumnNames, PrintColumns, Fits;
    var close := [RPAREN] + rest;
    var list := PrintList(s.values, close);
    var values := [Lexeme(Values, "VALUES")] + ([LPAREN] + list);
    Next(RPAREN, rest);
    ListParses(s.values, close);
    Next(LPAREN, list);
    Next(Lexeme(Values, "VALUES"), [LPAREN] + list);
    ColumnsParse(s.columns, values);
    var columns := PrintColumns(s.columns, values);
    Next(Name(s.collection), columns);
    Next(Lexeme(Into, "INTO"), PrintName(s.collection, columns));
    Next(Lexeme(Insert, "INSERT"), [Lexeme(Into, "INTO")] + PrintName(s.collection, columns));
  }

  lemma ColumnsParse(columns: seq<string>, rest: seq<Lexeme>)
    requires Kind(rest).Values?
    ensures ParseColumnNames(PrintColumns(columns, rest)) == Ok(columns, rest)
  {
    hide ParseSeparated, PrintSeparated;
    if columns != [] {
      var close := [RPAREN] + rest;
      Next(RPAREN, rest);
      Next(LPAREN, PrintSeparated(PrintName, columns, close));
      forall name, tail | name in columns && (Kind(tail).Comma? || tail == close)
        ensures Reads(ParseColumnName, PrintName, name, tail)
      {
        NameReads(name, tail);
      }
      SeparatedParses(ParseColumnName, PrintName, columns, close);
    }
  }

  lemma AssignmentsParse(assignments: seq<Assignment>, rest: seq<Lexeme>)
    requires assignments != [] && (forall a | a in assignments :: Fits(a.value, Free))
    requires ClauseRank(Kind(rest)) > 0
    ensures ParseSeparated(ParseAssignment, PrintSeparated(PrintAssignment, assignments, rest)) == Ok(assignments, rest)
  {
    hide ParseSeparated, PrintSeparated, Fits, Reads;
    forall a, tail | a in assignments && (Kind(tail).Comma? || tail == rest)
      ensures Reads(ParseAssignment, PrintAssignment, a, tail)
    {
      AssignmentReads(a, tail);
    }
    SeparatedParses(ParseAssignment, PrintAssignment, assignments, rest);
  }

  lemma UpdateParses(s: Statement, rest: seq<Lexeme>)
    requires s.UpdateStmt? && StatementFits(s) && ClauseRank(Kind(rest)) == 7
    ensures Kind(PrintStatement(s, rest)).Update?
    ensures ParseUpdate(PrintStatement(s, rest)) == Ok(s, rest)
  {
    hide ParseSeparated, PrintSeparated, ParseClause, PrintClause, Fits;
    var afterSet := PrintClause(WHERE, s.where_, rest);
    ClauseParses(WHERE, s.where_, rest);
    AssignmentsParse(s.assignments, afterSet);
    var list := PrintSeparated(PrintAssignment, s.assignments, afterSet);
    Next(Lexeme(Set, "SET"), list);
    Next(Name(s.collection), [Lexeme(Set, "SET")] + list);
    Next(Lexeme(Update, "UPDATE"), PrintName(s.collection, [Lexeme(Set, "SET")] + list));
  }

  lemma DeleteParses(s: Statement, rest: seq<Lexeme>)
    requires s.DeleteStmt? && StatementFits(s) && ClauseRank(Kind(rest)) == 7
    ensures Kind(PrintStatement(s, rest)).Delete?
    ensures ParseDelete(PrintStatement(s, rest)) == Ok(s, rest)
  {
    hide ParseClause, PrintClause, OptionFits, Advance, Kind, Text;
    var afterName := PrintClause(WHERE, s.where_, rest);
    ClauseParses(WHERE, s.where_, rest);
    Next(Name(s.collection), afterName);
    Next(FROM, PrintName(s.collection, afterName));
    Next(Lexeme(Delete, "DELETE"), [FROM] + PrintName(s.collection, afterName));
  }

  /** Statements that fit are returned unchanged, with or without a semicolon after them. */
  lemma StatementParses(s: Statement, end: seq<Lexeme>)
    requires StatementFits(s) && (end == [] || end == [Lexeme(Semicolon, ";")])
    ensures ParseInput(PrintStatement(s, end)) == Ok(Some(s), [])
  {
    hide ParseSelect, ParseInsert, ParseUpdate, ParseDelete, PrintStatement;
    if s.SelectStmt? {
      SelectParses(s, end);
    } else if s.InsertStmt? {
      InsertParses(s, end);
    } else if s.UpdateStmt? {
      UpdateParses(s, end);
    } else {
      DeleteParses(s, end);
    }
  }
}
