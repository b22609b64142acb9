/** The grammar of SELECT, INSERT, UPDATE and DELETE, on top of the expression grammar. */
module StatementGrammar {
  import opened Wrappers
  import opened Tokens
  import opened Ast
  import opened Grammar

  type ItemParser<!T> = seq<Lexeme> -> Parse<T>

  ghost predicate Progresses<T(!new)>(item: ItemParser<T>) {
    forall ts: seq<Lexeme> :: item(ts).Ok? ==> |item(ts).rest| < |ts|
  }

  /** One or more items separated by commas. */
  ghost function ParseSeparated<T(!new)>(item: ItemParser<T>, ts: seq<Lexeme>): (r: Parse<seq<T>>)
    requires Progresses(item)
    ensures r.Ok? ==> |r.rest| < |ts| && r.value != []
    decreases |ts|
  {
    var (x, rest) :- item(ts);
    if Kind(rest).Comma? then
      var (xs, rest) :- ParseSeparated(item, Advance(rest));
      Ok([x] + xs, rest)
    else Ok([x], rest)
  }

  function ParseName(ts: seq<Lexeme>, message: string): (r: Parse<string>)
    ensures r.Ok? ==> |r.rest| < |ts|
  {
    if Kind(ts).Identifier? then Ok(Text(ts), Advance(ts)) else Fail(message)
  }

  function ParseColumnName(ts: seq<Lexeme>): (r: Parse<string>)
    ensures r.Ok? ==> |r.rest| < |ts|
  {
    ParseName(ts, "Expected column_name after '('")
  }

  function ParseSelectItem(ts: seq<Lexeme>): (r: Parse<SelectItem>)
    ensures r.Ok? ==> |r.rest| < |ts|
  {
    if Kind(ts).Star? then Ok(StarItem, Advance(ts))
    else
      var (expression, rest) :- ParseExpression(ts);
      if Kind(rest).As? then
        var (alias, rest) :- ParseName(Advance(rest), "Expected alias after AS");
        Ok(ExprItem(expression, Some(alias)), rest)
      else Ok(ExprItem(expression, None), rest)
  }

  function ParseOrderItem(ts: seq<Lexeme>): (r: Parse<OrderByItem>)
    ensures r.Ok? ==> |r.rest| < |ts|
  {
    var (expression, rest) :- ParseExpression(ts);
    if Kind(rest).Desc? then Ok(OrderByItem(expression, DESC), Advance(rest))
    else if Kind(rest).Asc? then Ok(OrderByItem(expression, ASC), Advance(rest))
    else Ok(OrderByItem(expression, ASC), rest)
  }

  function ParseAssignment(ts: seq<Lexeme>): (r: Parse<Assignment>)
    ensures r.Ok? ==> |r.rest| < |ts|
  {
    var (column, rest) :- ParseName(ts, "Expected column_name before =");
    var (_, rest) :- Consume(rest, Equal, "Expected = after column_name");
    var (value, rest) :- ParseExpression(rest);
    Ok(Assignment(column, value), rest)
  }

  /** An optional clause made of a keyword and an expression: WHERE and HAVING. */
  function ParseClause(keyword: TokenType, ts: seq<Lexeme>): Parse<Option<Expr>> {
    if Kind(ts) == keyword then
      var (e, rest) :- ParseExpression(Advance(ts));
      Ok(Some(e), rest)
    else Ok(None, ts)
  }

  function ParseGroupBy(ts: seq<Lexeme>): Parse<seq<Expr>> {
    if Kind(ts).Group? then
      var (_, rest) :- Consume(Advance(ts), By, "Expected BY after GROUP");
      ParseList(rest)
    else Ok([], ts)
  }

  ghost function ParseOrderBy(ts: seq<Lexeme>): Parse<seq<OrderByItem>> {
    if Kind(ts).Order? then
      var (_, rest) :- Consume(Advance(ts), By, "Expected BY after ORDER");
      ParseSeparated(ParseOrderItem, rest)
    else Ok([], ts)
  }

  /** LIMIT and OFFSET. */
  function ParseCount(keyword: TokenType, expected: string, invalid: string, ts: seq<Lexeme>): Parse<Option<nat>> {
    if Kind(ts) != keyword then Ok(None, ts)
    else if !Kind(Advance(ts)).IntegerLiteral? then Fail(expected)
    else
      var n := ReadNumber(Text(Advance(ts)), MAX_UINT64);
      if n.Some? then Ok(n, Advance(Advance(ts))) else Fail(invalid)
  }

  ghost function ParseSelect(ts: seq<Lexeme>): Parse<Statement> {
    var (items, rest) :- ParseSeparated(ParseSelectItem, Advance(ts));
    var (_, rest) :- Consume(rest, From, "Expected FROM after select items");
    var (collection, rest) :- ParseName(rest, "Expected collection_name after FROM");
    var (condition, rest) :- ParseClause(Where, rest);
    var (groupBy, rest) :- ParseGroupBy(rest);
    var (having, rest) :- ParseClause(Having, rest);
    var (orderBy, rest) :- ParseOrderBy(rest);
    var (limit, rest) :-
      ParseCount(Limit, "Expected integer literal after LIMIT", "Invalid integer literal for LIMIT", rest);
    var (offset, rest) :-
      ParseCount(Offset, "Expected integer literal after OFFSET", "Invalid integer literal for OFFSET", rest);
    Ok(SelectStmt(collection, items, condition, groupBy, having, orderBy, limit, offset), rest)
  }

  ghost function ParseColumnNames(ts: seq<Lexeme>): Parse<seq<string>> {
    if Kind(ts).LeftParen? then
      var (names, rest) :- ParseSeparated(ParseColumnName, Advance(ts));
      var (_, rest) :- Consume(rest, RightParen, "Expected ')' after column_names");
      Ok(names, rest)
    else Ok([], ts)
  }

  function ParseValueList(ts: seq<Lexeme>): Parse<seq<Expr>> {
    var (_, rest) :- Consume(ts, Values, "Expected VALUES after INTO");
    var (_, rest) :- Consume(rest, LeftParen, "Expected '(' after VALUES");
    var (values, rest) :- ParseList(rest);
    var (_, rest) :- Consume(rest, RightParen, "Expected ')' after values");
    Ok(values, rest)
  }

  ghost function ParseInsert(ts: seq<Lexeme>): Parse<Statement> {
    var (_, rest) :- Consume(Advance(ts), Into, "Expected INTO after INSERT");
    var (collection, rest) :- ParseName(rest, "Expected collection_name after INTO");
    var (columns, rest) :- ParseColumnNames(rest);
    var (values, rest) :- ParseValueList(rest);
    Ok(InsertStmt(collection, columns, values), rest)
  }

  ghost function ParseUpdate(ts: seq<Lexeme>): Parse<Statement> {
    var (collection, rest) :- ParseName(Advance(ts), "Expected collection_name after UPDATE");
    var (_, rest) :- Consume(rest, Set, "Expected SET after UPDATE");
    var (assignments, rest) :- ParseSeparated(ParseAssignment, rest);
    var (condition, rest) :- ParseClause(Where, rest);
    Ok(UpdateStmt(collection, assignments, condition), rest)
  }

  function ParseDelete(ts: seq<Lexeme>): Parse<Statement> {
    var (_, rest) :- Consume(Advance(ts), From, "Expected FROM after DELETE");
    var (collection, rest) :- ParseName(rest, "Expected collection_name after FROM");
    var (condition, rest) :- ParseClause(Where, rest);
    Ok(DeleteStmt(collection, condition), rest)
  }

  /** The statements of data definition, which this model does not parse. */
  predicate StartsDefinition(kind: TokenType) {
    || kind.Create? || kind.Drop? || kind.Use? || kind.Alter? || kind.Show? || kind.Describe? || kind.Desc?
  }

  const NOT_MODELLED := "Statement of data definition"

  ghost function ParseStatement(ts: seq<Lexeme>): Parse<Statement> {
    var kind := Kind(ts);
    if kind.Select? then ParseSelect(ts)
    else if kind.Insert? then ParseInsert(ts)
    else if kind.Update? then ParseUpdate(ts)
    else if kind.Delete? then ParseDelete(ts)
    else if StartsDefinition(kind) then Fail(NOT_MODELLED)
    else Fail("Unexpected token")
  }

  /** A whole input: nothing, or one statement with an optional semicolon. */
  ghost function ParseInput(ts: seq<Lexeme>): Parse<Option<Statement>> {
    if Kind(ts).EoF? then Ok(None, ts)
    else
      var (statement, rest) :- ParseStatement(ts);
      var end := if Kind(rest).Semicolon? then Advance(rest) else rest;
      if Kind(end).EoF? then Ok(Some(statement), end) else Fail("Unexpected token")
  }
}
