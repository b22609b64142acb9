/** Statements as the statement formatter prints them, as tokens and as characters. */
module StatementPrinting {
  import opened Wrappers
  import opened Tokens
  import opened Ast
  import opened Printing
  import opened Rendering

  ghost function PrintSeparated<T>(print_: (T, seq<Lexeme>) -> seq<Lexeme>, xs: seq<T>, rest: seq<Lexeme>)
    : seq<Lexeme>
  {
    if xs == [] then rest
    else if |xs| == 1 then print_(xs[0], rest)
    else print_(xs[0], [COMMA] + PrintSeparated(print_, xs[1..], rest))
  }

  const AS := Lexeme(As, "AS")
  const FROM := Lexeme(From, "FROM")
  const BY := Lexeme(By, "BY")
  const EQUALS := Lexeme(Equal, "=")
  const WHERE := Lexeme(Where, "WHERE")
  const HAVING := Lexeme(Having, "HAVING")
  const LIMIT := Lexeme(Limit, "LIMIT")
  const OFFSET := Lexeme(Offset, "OFFSET")

  function PrintName(name: string, rest: seq<Lexeme>): seq<Lexeme> {
    [Name(name)] + rest
  }

  function PrintAlias(alias: Option<string>, rest: seq<Lexeme>): seq<Lexeme> {
    if alias.Some? then [AS] + PrintName(alias.value, rest) else rest
  }

  function PrintItem(item: SelectItem, rest: seq<Lexeme>): seq<Lexeme> {
    match item
    case StarItem => [Lexeme(Star, "*")] + rest
    case ExprItem(e, alias) => Print(e, PrintAlias(alias, rest))
  }

  function DirectionLexeme(direction: Direction): Lexeme {
    if direction == ASC then Lexeme(Asc, "ASC") else Lexeme(Desc, "DESC")
  }

  function PrintOrderItem(item: OrderByItem, rest: seq<Lexeme>): seq<Lexeme> {
    Print(item.expression, [DirectionLexeme(item.direction)] + rest)
  }

  function PrintAssignment(assignment: Assignment, rest: seq<Lexeme>): seq<Lexeme> {
    PrintName(assignment.column, [EQUALS] + Print(assignment.value, rest))
  }

  function PrintClause(keyword: Lexeme, e: Option<Expr>, rest: seq<Lexeme>): seq<Lexeme> {
    if e.Some? then [keyword] + Print(e.value, rest) else rest
  }

  function PrintGroupBy(es: seq<Expr>, rest: seq<Lexeme>): seq<Lexeme> {
    if es == [] then rest else [Lexeme(Group, "GROUP")] + ([BY] + PrintList(es, rest))
  }

  ghost function PrintOrderBy(items: seq<OrderByItem>, rest: seq<Lexeme>): seq<Lexeme> {
    if items == [] then rest else [Lexeme(Order, "ORDER")] + ([BY] + PrintSeparated(PrintOrderItem, items, rest))
  }

  function PrintCount(keyword: Lexeme, n: Option<nat>, rest: seq<Lexeme>): seq<Lexeme> {
    if n.Some? then [keyword] + ([Lexeme(IntegerLiteral, Decimal(n.value))] + rest) else rest
  }

  ghost function PrintColumns(columns: seq<string>, rest: seq<Lexeme>): seq<Lexeme> {
    if columns == [] then rest else [LPAREN] + PrintSeparated(PrintName, columns, [RPAREN] + rest)
  }

  ghost function PrintSelectTail(s: Statement, rest: seq<Lexeme>): seq<Lexeme>
    requires s.SelectStmt?
  {
    PrintClause(WHERE, s.where_,
      PrintGroupBy(s.groupBy,
        PrintClause(HAVING, s.having,
          PrintOrderBy(s.orderBy,
            PrintCount(LIMIT, s.limit, PrintCount(OFFSET, s.offset, rest))))))
  }

  ghost function PrintStatement(s: Statement, rest: seq<Lexeme>): seq<Lexeme> {
    match s
    case SelectStmt(collection, items, _, _, _, _, _, _) =>
      [Lexeme(Select, "SELECT")] +
      PrintSeparated(PrintItem, items, [FROM] + PrintName(collection, PrintSelectTail(s, rest)))
    case InsertStmt(collection, columns, values) =>
      [Lexeme(Insert, "INSERT")] + ([Lexeme(Into, "INTO")] + PrintName(collection, PrintColumns(columns,
        [Lexeme(Values, "VALUES")] + ([LPAREN] + PrintList(values, [RPAREN] + rest)))))
    case UpdateStmt(collection, assignments, condition) =>
      [Lexeme(Update, "UPDATE")] + PrintName(collection, [Lexeme(Set, "SET")] +
        PrintSeparated(PrintAssignment, assignments, PrintClause(WHERE, condition, rest)))
    case DeleteStmt(collection, condition) =>
      [Lexeme(Delete, "DELETE")] + ([FROM] + PrintName(collection, PrintClause(WHERE, condition, rest)))
  }

  // The same, as characters.

  ghost function RenderSeparated<T>(render: (T, string) -> string, xs: seq<T>, rest: string): string {
    if xs == [] then rest
    else if |xs| == 1 then render(xs[0], rest)
    else render(xs[0], ", " + RenderSeparated(render, xs[1..], rest))
  }

  function RenderName(name: string, rest: string): string {
    name + rest
  }

  function RenderItem(item: SelectItem, rest: string): string {
    match item
    case StarItem => "*" + rest
    case ExprItem(e, alias) => Render(e, if alias.Some? then " AS " + (alias.value + rest) else rest)
  }

  function DirectionText(direction: Direction): string {
    if direction == ASC then " ASC" else " DESC"
  }

  function RenderOrderItem(item: OrderByItem, rest: string): string {
    Render(item.expression, DirectionText(item.direction) + rest)
  }

  function RenderAssignment(assignment: Assignment, rest: string): string {
    assignment.column + (" = " + Render(assignment.value, rest))
  }

  function RenderClause(keyword: string, e: Option<Expr>, rest: string): string {
    if e.Some? then keyword + Render(e.value, rest) else rest
  }

  function RenderGroupBy(es: seq<Expr>, rest: string): string {
    if es == [] then rest else " GROUP BY " + RenderList(es, rest)
  }

  ghost function RenderOrderBy(items: seq<OrderByItem>, rest: string): string {
    if items == [] then rest else " ORDER BY " + RenderSeparated(RenderOrderItem, items, rest)
  }

  function RenderCount(keyword: string, n: Option<nat>, rest: string): string {
    if n.Some? then keyword + (Decimal(n.value) + rest) else rest
  }

  ghost function RenderColumns(columns: seq<string>, rest: string): string {
    if columns == [] then rest else " (" + RenderSeparated(RenderName, columns, ")" + rest)
  }

  ghost function RenderSelectTail(s: Statement, rest: string): string
    requires s.SelectStmt?
  {
    RenderClause(" WHERE ", s.where_,
      RenderGroupBy(s.groupBy,
        RenderClause(" HAVING ", s.having,
          RenderOrderBy(s.orderBy,
            RenderCount(" LIMIT ", s.limit, RenderCount(" OFFSET ", s.offset, rest))))))
  }

  ghost function RenderStatement(s: Statement, rest: string): string {
    match s
    case SelectStmt(collection, items, _, _, _, _, _, _) =>
      "SELECT " + RenderSeparated(RenderItem, items, " FROM " + (collection + RenderSelectTail(s, rest)))
    case InsertStmt(collection, columns, values) =>
      "INSERT INTO " + (collection + RenderColumns(columns, " VALUES (" + RenderList(values, ")" + rest)))
    case UpdateStmt(collection, assignments, condition) =>
      "UPDATE " + (collection + (" SET " +
        RenderSeparated(RenderAssignment, assignments, RenderClause(" WHERE ", condition, rest))))
    case DeleteStmt(collection, condition) =>
      "DELETE FROM " + (collection + RenderClause(" WHERE ", condition, rest))
  }
}
