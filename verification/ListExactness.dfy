/**
 * The converse of StatementRoundTrip for expressions and for the lists of a statement: each item of a list that is
 * read back is found again where it was printed, because the tree read from it accounts for its tokens.
 */
module ListExactness {
  import opened Wrappers
  import opened Tokens
  import opened Ast
  import opened Grammar
  import opened Printing
  import opened RoundTrip
  import opened Consumption
  import opened Exactness
  import opened StatementGrammar
  import opened StatementPrinting
  import opened StatementRoundTrip

  /** An expression read back as it was printed ends where it was printed, and fits. */
  lemma ExpressionBack(e: Expr, tail: seq<Lexeme>)
    requires FloatFree(e) && !Kind(tail).LeftParen?
    requires var r := ParseExpression(Print(e, tail)); r.Ok? && r.value == e && !Kind(r.rest).LeftParen?
    ensures ParseExpression(Print(e, tail)).rest == tail && Fits(e, Free)
  {
    hide Fits, Spans, Regular, Weight;
    var ts := Print(e, tail);
    ExpressionAccounts(ts);
    PrintSpans(e, tail);
    Align(ts, ParseExpression(ts).rest, tail, Weight(e));
    StartsPrinted(e, tail);
    ReadBackFits(e, OR_LEVEL, tail);
  }

  // Lists.

  /** What may stand after an item of a list. */
  datatype Stops = ItemStops | OrderStops | AssignmentStops

  predicate StopsAt(stops: Stops, kind: TokenType) {
    kind.Comma? || match stops
                   case ItemStops => kind.From?
                   case OrderStops => ClauseRank(kind) > 0
                   case AssignmentStops => ClauseRank(kind) > 0
  }

  /** An item read back as it was printed, with a stop after it, ends where it was printed, and fits. */
  ghost predicate Back<T(!new)>(
    item: ItemParser<T>, print_: (T, seq<Lexeme>) -> seq<Lexeme>, fits: T -> bool, stops: Stops,
    x: T, tail: seq<Lexeme>)
  {
    var r := item(print_(x, tail));
    r.Ok? && r.value == x && StopsAt(stops, Kind(r.rest)) ==> r.rest == tail && fits(x)
  }

  lemma {:induction false} SeparatedBack<T(!new)>(
    item: ItemParser<T>, print_: (T, seq<Lexeme>) -> seq<Lexeme>, fits: T -> bool, stops: Stops,
    xs: seq<T>, rest: seq<Lexeme>)
    requires Progresses(item) && xs != []
    requires forall x, tail | x in xs && (Kind(tail).Comma? || tail == rest) :: Back(item, print_, fits, stops, x, tail)
    ensures var r := ParseSeparated(item, PrintSeparated(print_, xs, rest));
            r.Ok? && r.value == xs && StopsAt(stops, Kind(r.rest)) ==> r.rest == rest && forall x | x in xs :: fits(x)
    decreases xs
  {
    hide StopsAt;
    var ts := PrintSeparated(print_, xs, rest);
    var first := item(ts);
    CommaStops(stops);
    if |xs| == 1 {
      assert Back(item, print_, fits, stops, xs[0], rest);
    } else {
      var more := PrintSeparated(print_, xs[1..], rest);
      Next(COMMA, more);
      assert Back(item, print_, fits, stops, xs[0], [COMMA] + more);
      SeparatedBack(item, print_, fits, stops, xs[1..], rest);
      var r := ParseSeparated(item, ts);
      if r.Ok? && r.value == xs {
        assert Kind(first.rest).Comma?;
        var others := ParseSeparated(item, Advance(first.rest));
        assert ([first.value] + others.value)[1..] == others.value;
        assert xs == [xs[0]] + xs[1..];
      }
    }
  }

  lemma CommaStops(stops: Stops)
    ensures forall kind: TokenType | kind.Comma? :: StopsAt(stops, kind)
  {
  }

  lemma ItemBack(item: SelectItem, tail: seq<Lexeme>)
    requires item.ExprItem? ==> FloatFree(item.expression)
    requires Kind(tail).Comma? || Kind(tail).From?
    ensures Back(ParseSelectItem, PrintItem, ItemFits, ItemStops, item, tail)
  {
    hide ParseSelectItem, PrintItem, Fits, FloatFree;
    if item.StarItem? {
      ItemReads(item, tail);
    } else if item.alias.Some? {
      AliasedBack(item.expression, item.alias.value, tail);
    } else {
      PlainBack(item.expression, tail);
    }
  }

  lemma AliasedBack(e: Expr, alias: string, tail: seq<Lexeme>)
    requires FloatFree(e)
    ensures Back(ParseSelectItem, PrintItem, ItemFits, ItemStops, ExprItem(e, Some(alias)), tail)
  {
    hide ParseExpression, Print, Fits, FloatFree, StartsExpression, Kind, Text, Advance;
    var after := [AS] + PrintName(alias, tail);
    var r := ParseSelectItem(Print(e, after));
    if r.Ok? && r.value == ExprItem(e, Some(alias)) {
      NotStar(e, after);
      Next(AS, PrintName(alias, tail));
      Next(Name(alias), tail);
      ExpressionBack(e, after);
    }
  }

  lemma PlainBack(e: Expr, tail: seq<Lexeme>)
    requires FloatFree(e) && !Kind(tail).LeftParen?
    ensures Back(ParseSelectItem, PrintItem, ItemFits, ItemStops, ExprItem(e, None), tail)
  {
    hide ParseExpression, Print, Fits, FloatFree, StartsExpression;
    var r := ParseSelectItem(Print(e, tail));
    if r.Ok? && r.value == ExprItem(e, None) && StopsAt(ItemStops, Kind(r.rest)) {
      NotStar(e, tail);
      ExpressionBack(e, tail);
    }
  }

  ghost predicate OrderItemFits(item: OrderByItem) {
    Fits(item.expression, Free)
  }

  lemma OrderItemBack(item: OrderByItem, tail: seq<Lexeme>)
    requires FloatFree(item.expression)
    ensures Back(ParseOrderItem, PrintOrderItem, OrderItemFits, OrderStops, item, tail)
  {
    hide ParseExpression, Print, Fits;
    var r := ParseOrderItem(PrintOrderItem(item, tail));
    if r.Ok? && r.value == item && StopsAt(OrderStops, Kind(r.rest)) {
      var after := [DirectionLexeme(item.direction)] + tail;
      Next(DirectionLexeme(item.direction), tail);
      ExpressionBack(item.expression, after);
    }
  }

  ghost predicate AssignmentFits(a: Assignment) {
    Fits(a.value, Free)
  }

  lemma AssignmentBack(a: Assignment, tail: seq<Lexeme>)
    requires FloatFree(a.value) && StopsAt(AssignmentStops, Kind(tail))
    ensures Back(ParseAssignment, PrintAssignment, AssignmentFits, AssignmentStops, a, tail)
  {
    hide ParseExpression, Print, Fits;
    var value := Print(a.value, tail);
    Next(Name(a.column), [EQUALS] + value);
    Next(EQUALS, value);
    var r := ParseAssignment(PrintAssignment(a, tail));
    if r.Ok? && r.value == a && StopsAt(AssignmentStops, Kind(r.rest)) {
      ExpressionBack(a.value, tail);
    }
  }
}
