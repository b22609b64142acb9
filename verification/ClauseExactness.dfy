/**
 * The converse of StatementRoundTrip for the optional clauses.  What stands after a clause is known from the end of
 * the statement backwards.
 */
module ClauseExactness {
  import opened Wrappers
  import opened Tokens
  import opened Ast
  import opened Grammar
  import opened Printing
  import opened RoundTrip
  import opened Consumption
  import opened Exactness
  import opened StatementGrammar
  import opened StatementPrinting
  import opened StatementRoundTrip
  import opened ListExactness

  ghost predicate OptionFloatFree(e: Option<Expr>) {
    e.Some? ==> FloatFree(e.value)
  }

  predicate AtClause(ts: seq<Lexeme>) {
    ClauseRank(Kind(ts)) > 0
  }

  lemma ClauseBack(keyword: Lexeme, e: Option<Expr>, rest: seq<Lexeme>)
    requires OptionFloatFree(e) && AtClause(rest)
    requires var r := ParseClause(keyword.kind, PrintClause(keyword, e, rest));
             r.Ok? && r.value == e && AtClause(r.rest)
    ensures ParseClause(keyword.kind, PrintClause(keyword, e, rest)).rest == rest && OptionFits(e)
  {
    hide ParseExpression, Print, Fits;
    if e.Some? {
      Next(keyword, Print(e.value, rest));
      ExpressionBack(e.value, rest);
    }
  }

  lemma ClauseStarts(keyword: TokenType, ts: seq<Lexeme>)
    requires ClauseRank(keyword) > 0
    ensures ParseClause(keyword, ts).Ok? && AtClause(ParseClause(keyword, ts).rest) ==> AtClause(ts)
  {
    hide ParseExpression;
  }

  lemma GroupByBack(es: seq<Expr>, rest: seq<Lexeme>)
    requires (forall e | e in es :: FloatFree(e)) && AtClause(rest)
    requires var r := ParseGroupBy(PrintGroupBy(es, rest)); r.Ok? && r.value == es && AtClause(r.rest)
    ensures ParseGroupBy(PrintGroupBy(es, rest)).rest == rest && AllFit(es)
  {
    hide ParseList, PrintList, Fits, FloatFree, Regular;
    if es != [] {
      var list := PrintList(es, rest);
      Next(Lexeme(Group, "GROUP"), [BY] + list);
      Next(BY, list);
      ListParseAccounts(list);
      ListFits(es, rest);
    } else {
      assert PrintGroupBy(es, rest) == rest;
      NoEmptyList(Advance(Advance(rest)));
    }
  }

  lemma {:induction false} NoEmptyList(ts: seq<Lexeme>)
    ensures ParseList(ts).Ok? ==> ParseList(ts).value != []
  {
    hide ParseExpression;
  }

  lemma GroupByStarts(ts: seq<Lexeme>)
    ensures ParseGroupBy(ts).Ok? && AtClause(ParseGroupBy(ts).rest) ==> AtClause(ts)
  {
    hide ParseList;
  }

  lemma OrderByBack(items: seq<OrderByItem>, rest: seq<Lexeme>)
    requires (forall item | item in items :: FloatFree(item.expression)) && AtClause(rest)
    requires var r := ParseOrderBy(PrintOrderBy(items, rest)); r.Ok? && r.value == items && AtClause(r.rest)
    ensures ParseOrderBy(PrintOrderBy(items, rest)).rest == rest
    ensures forall item | item in items :: Fits(item.expression, Free)
  {
    hide ParseSeparated, PrintSeparated, Fits, FloatFree, Back;
    if items != [] {
      var list := PrintSeparated(PrintOrderItem, items, rest);
      Next(Lexeme(Order, "ORDER"), [BY] + list);
      Next(BY, list);
      forall item, tail | item in items && (Kind(tail).Comma? || tail == rest)
        ensures Back(ParseOrderItem, PrintOrderItem, OrderItemFits, OrderStops, item, tail)
      {
        OrderItemBack(item, tail);
      }
      SeparatedBack(ParseOrderItem, PrintOrderItem, OrderItemFits, OrderStops, items, rest);
      assert forall item | item in items :: OrderItemFits(item);
    } else {
      assert PrintOrderBy(items, rest) == rest;
    }
  }

  lemma OrderByStarts(ts: seq<Lexeme>)
    ensures ParseOrderBy(ts).Ok? && AtClause(ParseOrderBy(ts).rest) ==> AtClause(ts)
  {
    hide ParseSeparated;
  }

  lemma CountBack(keyword: Lexeme, expected: string, invalid: string, n: Option<nat>, rest: seq<Lexeme>)
    requires var r := ParseCount(keyword.kind, expected, invalid, PrintCount(keyword, n, rest)); r.Ok? && r.value == n
    ensures ParseCount(keyword.kind, expected, invalid, PrintCount(keyword, n, rest)).rest == rest && CountFits(n)
  {
    if n.Some? {
      var numeral := Lexeme(IntegerLiteral, Decimal(n.value));
      Next(keyword, [numeral] + rest);
      Next(numeral, rest);
    }
  }

  lemma CountStarts(keyword: TokenType, expected: string, invalid: string, ts: seq<Lexeme>)
    requires ClauseRank(keyword) > 0
    ensures ParseCount(keyword, expected, invalid, ts).Ok? && AtClause(ParseCount(keyword, expected, invalid, ts).rest)
            ==> AtClause(ts)
  {
  }
}
