/**
 * The converse of StatementRoundTrip: a statement that is read back unchanged fits, so that the round trip holds of
 * exactly the statements that fit.
 */
module StatementExactness {
  import opened Wrappers
  import opened Tokens
  import opened Ast
  import opened Grammar
  import opened Printing
  import opened RoundTrip
  import opened Consumption
  import opened Exactness
  import opened StatementGrammar
  import opened StatementPrinting
  import opened StatementRoundTrip
  import opened ListExactness
  import opened ClauseExactness

  ghost predicate StatementFloatFree(s: Statement) {
    match s
    case SelectStmt(_, items, condition, groupBy, having, orderBy, _, _) =>
      && (forall item | item in items :: item.ExprItem? ==> FloatFree(item.expression))
      && OptionFloatFree(condition) && (forall e | e in groupBy :: FloatFree(e)) && OptionFloatFree(having)
      && (forall item | item in orderBy :: FloatFree(item.expression))
    case InsertStmt(_, _, values) => forall e | e in values :: FloatFree(e)
    case UpdateStmt(_, assignments, condition) =>
      (forall a | a in assignments :: FloatFree(a.value)) && OptionFloatFree(condition)
    case DeleteStmt(_, condition) => OptionFloatFree(condition)
  }

  lemma DeleteBack(s: Statement, end: seq<Lexeme>)
    requires s.DeleteStmt? && StatementFloatFree(s) && AtClause(end)
    ensures var r := ParseDelete(PrintStatement(s, end));
            r.Ok? && r.value == s && AtClause(r.rest) ==> StatementFits(s)
  {
    hide ParseClause, PrintClause, Fits, FloatFree;
    var r := ParseDelete(PrintStatement(s, end));
    if r.Ok? && r.value == s && AtClause(r.rest) {
      var afterName := PrintClause(WHERE, s.where_, end);
      Next(Lexeme(Delete, "DELETE"), [FROM] + PrintName(s.collection, afterName));
      Next(FROM, PrintName(s.collection, afterName));
      Next(Name(s.collection), afterName);
      ClauseBack(WHERE, s.where_, end);
    }
  }

  lemma UpdateBack(s: Statement, end: seq<Lexeme>)
    requires s.UpdateStmt? && StatementFloatFree(s) && AtClause(end)
    ensures var r := ParseUpdate(PrintStatement(s, end));
            r.Ok? && r.value == s && AtClause(r.rest) ==> StatementFits(s)
  {
    hide ParseSeparated, PrintSeparated, Fits, FloatFree, Back, AtClause, ParseClause;
    var r := ParseUpdate(PrintStatement(s, end));
    if r.Ok? && r.value == s && AtClause(r.rest) {
      var afterSet := PrintClause(WHERE, s.where_, end);
      var list := PrintSeparated(PrintAssignment, s.assignments, afterSet);
      Next(Lexeme(Update, "UPDATE"), PrintName(s.collection, [Lexeme(Set, "SET")] + list));
      Next(Name(s.collection), [Lexeme(Set, "SET")] + list);
      Next(Lexeme(Set, "SET"), list);
      var read := ParseSeparated(ParseAssignment, list);
      ClauseStarts(Where, read.rest);
      PrintedClause(WHERE, s.where_, end);
      ClauseMeansStop(read.rest);
      ClauseMeansStop(afterSet);
      forall a, tail | a in s.assignments && (Kind(tail).Comma? || tail == afterSet)
        ensures Back(ParseAssignment, PrintAssignment, AssignmentFits, AssignmentStops, a, tail)
      {
        AssignmentBack(a, tail);
      }
      SeparatedBack(ParseAssignment, PrintAssignment, AssignmentFits, AssignmentStops, s.assignments, afterSet);
      assert forall a | a in s.assignments :: AssignmentFits(a);
      ClauseBack(WHERE, s.where_, end);
    }
  }

  lemma PrintedClause(keyword: Lexeme, e: Option<Expr>, rest: seq<Lexeme>)
    requires ClauseRank(keyword.kind) > 0 && AtClause(rest)
    ensures AtClause(PrintClause(keyword, e, rest))
  {
  }

  lemma ClauseMeansStop(ts: seq<Lexeme>)
    ensures AtClause(ts) ==> StopsAt(AssignmentStops, Kind(ts)) && StopsAt(OrderStops, Kind(ts))
  {
  }

  function PrintValues(values: seq<Expr>, end: seq<Lexeme>): seq<Lexeme> {
    [Lexeme(Values, "VALUES")] + ([LPAREN] + PrintList(values, [RPAREN] + end))
  }

  lemma ValuesBack(values: seq<Expr>, end: seq<Lexeme>)
    requires forall e | e in values :: FloatFree(e)
    ensures var r := ParseValueList(PrintValues(values, end));
            r.Ok? && r.value == values ==> values != [] && AllFit(values)
  {
    hide ParseList, PrintList, Fits, FloatFree, Regular;
    var r := ParseValueList(PrintValues(values, end));
    if r.Ok? && r.value == values {
      var close := [RPAREN] + end;
      var list := PrintList(values, close);
      Next(Lexeme(Values, "VALUES"), [LPAREN] + list);
      Next(LPAREN, list);
      Next(RPAREN, end);
      NoEmptyList(list);
      ListParseAccounts(list);
      ListFits(values, close);
    }
  }

  lemma InsertBack(s: Statement, end: seq<Lexeme>)
    requires s.InsertStmt? && StatementFloatFree(s)
    ensures var r := ParseInsert(PrintStatement(s, end)); r.Ok? && r.value == s ==> StatementFits(s)
  {
    hide ParseColumnNames, PrintColumns, ParseValueList, PrintList, Fits, FloatFree, Advance, Kind, Text;
    var values := PrintValues(s.values, end);
    var columns := PrintColumns(s.columns, values);
    Next(Lexeme(Insert, "INSERT"), [Lexeme(Into, "INTO")] + PrintName(s.collection, columns));
    Next(Lexeme(Into, "INTO"), PrintName(s.collection, columns));
    Next(Name(s.collection), columns);
    Next(Lexeme(Values, "VALUES"), [LPAREN] + PrintList(s.values, [RPAREN] + end));
    ColumnsParse(s.columns, values);
    ValuesBack(s.values, end);
  }

  ghost predicate TailFits(s: Statement)
    requires s.SelectStmt?
  {
    && OptionFits(s.where_) && AllFit(s.groupBy) && OptionFits(s.having)
    && (forall item | item in s.orderBy :: Fits(item.expression, Free)) && CountFits(s.limit) && CountFits(s.offset)
  }

  lemma TailBack(s: Statement, end: seq<Lexeme>)
    requires s.SelectStmt? && StatementFloatFree(s) && AtClause(end)
    ensures var r := ParseTail(s, PrintSelectTail(s, end));
            r.Ok? && r.value == s && AtClause(r.rest) ==> TailFits(s) && AtClause(PrintSelectTail(s, end))
  {
    hide ParseClause, PrintClause, ParseGroupBy, PrintGroupBy, ParseOrderBy, PrintOrderBy, ParseCount, PrintCount;
    hide AtClause, Fits, FloatFree;
    var r := ParseTail(s, PrintSelectTail(s, end));
    if r.Ok? && r.value == s && AtClause(r.rest) {
      var afterLimit := PrintCount(OFFSET, s.offset, end);
      var afterOrder := PrintCount(LIMIT, s.limit, afterLimit);
      var afterHaving := PrintOrderBy(s.orderBy, afterOrder);
      var afterGroup := PrintClause(HAVING, s.having, afterHaving);
      var afterWhere := PrintGroupBy(s.groupBy, afterGroup);
      PrintedTail(s, end);
      var a := ParseClause(Where, PrintSelectTail(s, end));
      var b := ParseGroupBy(a.rest);
      var c := ParseClause(Having, b.rest);
      var d := ParseOrderBy(c.rest);
      var e := ParseCount(Limit, "Expected integer literal after LIMIT", "Invalid integer literal for LIMIT", d.rest);
      CountStarts(Offset, "Expected integer literal after OFFSET", "Invalid integer literal for OFFSET", e.rest);
      CountStarts(Limit, "Expected integer literal after LIMIT", "Invalid integer literal for LIMIT", d.rest);
      OrderByStarts(c.rest);
      ClauseStarts(Having, b.rest);
      GroupByStarts(a.rest);
      ClauseBack(WHERE, s.where_, afterWhere);
      GroupByBack(s.groupBy, afterGroup);
      ClauseBack(HAVING, s.having, afterHaving);
      OrderByBack(s.orderBy, afterOrder);
      CountBack(LIMIT, "Expected integer literal after LIMIT", "Invalid integer literal for LIMIT",
                s.limit, afterLimit);
      CountBack(OFFSET, "Expected integer literal after OFFSET", "Invalid integer literal for OFFSET", s.offset, end);
    }
  }

  lemma PrintedTail(s: Statement, end: seq<Lexeme>)
    requires s.SelectStmt? && AtClause(end)
    ensures var afterLimit := PrintCount(OFFSET, s.offset, end);
            var afterOrder := PrintCount(LIMIT, s.limit, afterLimit);
            var afterHaving := PrintOrderBy(s.orderBy, afterOrder);
            var afterGroup := PrintClause(HAVING, s.having, afterHaving);
            var afterWhere := PrintGroupBy(s.groupBy, afterGroup);
            && AtClause(afterLimit) && AtClause(afterOrder) && AtClause(afterHaving) && AtClause(afterGroup)
            && AtClause(afterWhere) && AtClause(PrintSelectTail(s, end))
  {
    hide PrintSeparated, PrintList, Print;
  }

  lemma ItemsBack(items: seq<SelectItem>, rest: seq<Lexeme>)
    requires items != [] && (forall item | item in items :: item.ExprItem? ==> FloatFree(item.expression))
    requires Kind(rest).From?
    ensures var r := ParseSeparated(ParseSelectItem, PrintSeparated(PrintItem, items, rest));
            r.Ok? && r.value == items && Kind(r.rest).From? ==>
              r.rest == rest && forall item | item in items :: ItemFits(item)
  {
    hide ParseSeparated, PrintSeparated, Back, FloatFree, ItemFits;
    var r := ParseSeparated(ParseSelectItem, PrintSeparated(PrintItem, items, rest));
    if r.Ok? && r.value == items && Kind(r.rest).From? {
      forall item, tail | item in items && (Kind(tail).Comma? || tail == rest)
        ensures Back(ParseSelectItem, PrintItem, ItemFits, ItemStops, item, tail)
      {
        ItemBack(item, tail);
      }
      SeparatedBack(ParseSelectItem, PrintItem, ItemFits, ItemStops, items, rest);
    }
  }

  lemma SelectBack(s: Statement, end: seq<Lexeme>)
    requires s.SelectStmt? && StatementFloatFree(s) && AtClause(end)
    ensures var r := ParseSelect(PrintStatement(s, end));
            r.Ok? && r.value == s && AtClause(r.rest) ==> StatementFits(s)
  {
    hide ParseSeparated, PrintSeparated, PrintSelectTail, FloatFree, AtClause, TailFits, ItemFits, StatementFits;
    hide ParseSelect, ParseTail;
    var r := ParseSelect(PrintStatement(s, end));
    if r.Ok? && r.value == s && AtClause(r.rest) {
      var afterName := PrintSelectTail(s, end);
      var rest := [FROM] + PrintName(s.collection, afterName);
      var list := PrintSeparated(PrintItem, s.items, rest);
      Next(Lexeme(Select, "SELECT"), list);
      Next(FROM, PrintName(s.collection, afterName));
      Next(Name(s.collection), afterName);
      SelectSplits(s, PrintStatement(s, end));
      ItemsBack(s.items, rest);
      TailBack(s, end);
      PartsFit(s);
    }
  }

  lemma PartsFit(s: Statement)
    requires s.SelectStmt? && s.items != [] && (forall item | item in s.items :: ItemFits(item)) && TailFits(s)
    ensures StatementFits(s)
  {
    hide Fits;
  }

  /** A SELECT that was read: items, FROM and the collection, then the clauses. */
  lemma SelectSplits(s: Statement, ts: seq<Lexeme>)
    requires s.SelectStmt?
    ensures ParseSelect(ts).Ok? && ParseSelect(ts).value == s ==>
            var items := ParseSeparated(ParseSelectItem, Advance(ts));
            && items.Ok? && items.value == s.items && s.items != [] && Kind(items.rest).From?
            && Kind(Advance(items.rest)).Identifier? && Text(Advance(items.rest)) == s.collection
            && ParseTail(s, Advance(Advance(items.rest))) == ParseSelect(ts)
  {
    hide ParseSeparated, ParseClause, ParseGroupBy, ParseOrderBy, ParseCount;
  }

  /**
   * Exactly the statements that fit are returned unchanged, with or without a semicolon: for every statement
   * without floats.
   */
  lemma StatementRoundTripExactly(s: Statement, end: seq<Lexeme>)
    requires StatementFloatFree(s) && (end == [] || end == [Lexeme(Semicolon, ";")])
    ensures ParseInput(PrintStatement(s, end)) == Ok(Some(s), []) <==> StatementFits(s)
  {
    hide PrintStatement, StatementFits, ParseInput, StatementFloatFree;
    if StatementFits(s) {
      StatementParses(s, end);
    } else {
      StatementBack(s, end);
    }
  }

  lemma StatementBack(s: Statement, end: seq<Lexeme>)
    requires StatementFloatFree(s) && (end == [] || end == [Lexeme(Semicolon, ";")])
    ensures ParseInput(PrintStatement(s, end)) == Ok(Some(s), []) ==> StatementFits(s)
  {
    hide ParseSelect, ParseInsert, ParseUpdate, ParseDelete, PrintStatement, StatementFits, StatementFloatFree;
    if ParseInput(PrintStatement(s, end)) == Ok(Some(s), []) {
      var r := ParseStatement(PrintStatement(s, end));
      KeywordPrinted(s, end);
      assert AtClause(r.rest) && AtClause(end);
      if s.SelectStmt? {
        SelectBack(s, end);
      } else if s.InsertStmt? {
        InsertBack(s, end);
      } else if s.UpdateStmt? {
        UpdateBack(s, end);
      } else {
        DeleteBack(s, end);
      }
    }
  }

  lemma KeywordPrinted(s: Statement, end: seq<Lexeme>)
    ensures var kind := Kind(PrintStatement(s, end));
            match s
            case SelectStmt(_, _, _, _, _, _, _, _) => kind.Select?
            case InsertStmt(_, _, _) => kind.Insert?
            case UpdateStmt(_, _, _) => kind.Update?
            case DeleteStmt(_, _) => kind.Delete?
  {
    hide PrintSeparated, PrintList, Print, PrintSelectTail, PrintColumns, PrintClause;
  }
}
