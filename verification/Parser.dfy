/** The recursive-descent parser: one current token, refilled from the lexer, and a method per grammar level. */
module Parser {
  import opened Wrappers
  import opened Tokens
  import opened Ast
  import opened Lexing
  import opened Lexer
  import opened Grammar
  import opened StatementGrammar

  /** A method's outcome and the tokens it left are those the grammar function gives. */
  ghost predicate Agrees<T(!new)>(r: Outcome<T>, spec: Parse<T>, left: seq<Lexeme>) {
    match spec
    case Ok(value, rest) => r == Value(value) && left == rest
    case Fail(message) => r == Throw(message)
  }

  /** Inside a comma loop: what is still to be read completes what was read to the whole result. */
  ghost predicate InLoop<T(!new)>(
    item: ItemParser<T>, whole: Parse<seq<T>>, read: seq<T>, more: bool, left: seq<Lexeme>)
    requires Progresses(item)
  {
    if !more then whole == Ok(read, left)
    else
      match ParseSeparated(item, left)
      case Ok(items, rest) => whole == Ok(read + items, rest)
      case Fail(message) => whole == Fail(message)
  }

  // The loop of a left-associative level, turn by turn.

  lemma LevelStart(level: nat, ts: seq<Lexeme>)
    requires 0 < level <= OR_LEVEL && level != COMPARISON
    ensures var left := ParseLevel(level - 1, ts);
            ParseLevel(level, ts) == if left.Fail? then left else ParseChain(level, left.value, left.rest)
    ensures ParseLevel(0, ts) == ParseUnary(ts)
  {
  }

  lemma ChainTurn(level: nat, left: Expr, ts: seq<Lexeme>)
    requires 0 < level <= OR_LEVEL && level != COMPARISON && OperatorAt(level, Kind(ts)).Some?
    ensures var right := ParseLevel(level - 1, Grammar.Advance(ts));
            ParseChain(level, left, ts) ==
            if right.Fail? then right
            else ParseChain(level, Binary(OperatorAt(level, Kind(ts)).value, left, right.value), right.rest)
  {
  }

  lemma ChainEnd(level: nat, left: Expr, ts: seq<Lexeme>)
    requires 0 < level <= OR_LEVEL && level != COMPARISON && OperatorAt(level, Kind(ts)).None?
    ensures ParseChain(level, left, ts) == Ok(left, ts)
  {
  }

  lemma LogicOperator(kind: TokenType)
    ensures OperatorAt(OR_LEVEL, kind) == if kind.Or? then Some(OpOr) else None
    ensures OperatorAt(AND_LEVEL, kind) == if kind.And? then Some(OpAnd) else None
  {
  }

  // A do-while loop over a comma-separated list, turn by turn.

  lemma LoopStart<T(!new)>(item: ItemParser<T>, ts: seq<Lexeme>)
    requires Progresses(item)
    ensures InLoop(item, ParseSeparated(item, ts), [], true, ts)
  {
    var whole := ParseSeparated(item, ts);
    if whole.Ok? {
      assert [] + whole.value == whole.value;
    }
  }

  lemma LoopTurn<T(!new)>(item: ItemParser<T>, whole: Parse<seq<T>>, read: seq<T>, ts: seq<Lexeme>)
    requires Progresses(item) && InLoop(item, whole, read, true, ts)
    ensures var x := item(ts);
            if x.Fail? then whole == Fail(x.message)
            else InLoop(item, whole, read + [x.value], Kind(x.rest).Comma?,
                        if Kind(x.rest).Comma? then Grammar.Advance(x.rest) else x.rest)
  {
    var x := item(ts);
    if x.Ok? && Kind(x.rest).Comma? {
      var more := ParseSeparated(item, Grammar.Advance(x.rest));
      if more.Ok? {
        assert read + ([x.value] + more.value) == read + [x.value] + more.value;
      }
    }
  }

  lemma LoopEnd<T(!new)>(item: ItemParser<T>, whole: Parse<seq<T>>, read: seq<T>, left: seq<Lexeme>)
    requires Progresses(item) && InLoop(item, whole, read, false, left)
    ensures whole == Ok(read, left)
  {
  }

  lemma UnaryTurn(ts: seq<Lexeme>)
    ensures var op := UnaryAt(Kind(ts));
            ParseUnary(ts) == if op.None? then ParsePrimary(ts)
                              else var operand := ParseUnary(Grammar.Advance(ts));
                                   if operand.Fail? then operand else Ok(Unary(op.value, operand.value), operand.rest)
  {
  }

  lemma InTurn(left: Expr, ts: seq<Lexeme>, isNot: bool)
    requires Kind(ts).In?
    ensures var list := Grammar.Advance(ts);
            ParsePredicate(left, ts, isNot) ==
            if !Kind(list).LeftParen? then Fail("Expected '(' after IN")
            else var inside := Grammar.Advance(list);
                 var values := Grammar.ParseArguments(inside, RightParen, "Expected ')' after IN values");
                 if values.Fail? then Fail(values.message) else Ok(InExpr(left, values.value, isNot), values.rest)
  {
  }

  lemma BetweenTurn(left: Expr, ts: seq<Lexeme>, isNot: bool)
    requires Kind(ts).Between?
    ensures var start := Grammar.ParseExpression(Grammar.Advance(ts));
            ParsePredicate(left, ts, isNot) ==
            if start.Fail? then start
            else if !Kind(start.rest).And? then Fail("Expected AND after BETWEEN start value")
            else var end := Grammar.ParseExpression(Grammar.Advance(start.rest));
                 if end.Fail? then end else Ok(BetweenExpr(left, start.value, end.value, isNot), end.rest)
  {
  }

  /** An argument list in parentheses. */
  ghost function ParseCall(name: string, ts: seq<Lexeme>): Parse<Expr> {
    if !Kind(ts).LeftParen? then Fail("Expected '(' after function name") else ParseNamed(name, ts)
  }

  lemma {:induction false} ListIsSeparated(ts: seq<Lexeme>)
    ensures ParseList(ts) == ParseSeparated(ParseExpression, ts)
    decreases |ts|
  {
    var first := ParseExpression(ts);
    if first.Ok? && Kind(first.rest).Comma? {
      ListIsSeparated(Grammar.Advance(first.rest));
    }
  }

  class Parser {
    const lexer: Lexer
    var current: Token
    ghost var tokens: seq<Lexeme>  // the tokens not yet consumed, the current one first

    ghost predicate Valid()
      reads this, lexer
      ensures Valid() ==> Kind(tokens) == current.kind && (tokens != [] ==> Text(tokens) == current.value)
    {
      && lexer.Valid()
      && tokens == (if current.kind.EoF? then [] else [current.Strip()] + lexer.tokens)
      && (current.kind.EoF? ==> lexer.tokens == [])
    }

    constructor (input: string)
      ensures fresh(lexer) && lexer.Valid() && lexer.tokens == Lexemes(input)
    {
      lexer := new Lexer(input);
      current := Token(EoF, "", 0, 0);
    }

    lemma NothingAfterEnd()
      requires Valid() && current.kind.EoF?
      ensures tokens == []
    {
    }

    method Advance()
      requires Valid()
      modifies this, lexer
      ensures Valid() && tokens == Grammar.Advance(old(tokens))
    {
      tokens := lexer.tokens;
      current := lexer.Next();
    }

    predicate Check(kind: TokenType)
      reads this
    {
      current.kind == kind
    }

    method Match(kind: TokenType) returns (matched: bool)
      requires Valid() && !kind.EoF?
      modifies this, lexer
      ensures Valid() && matched == (Kind(old(tokens)) == kind)
      ensures tokens == if matched then Grammar.Advance(old(tokens)) else old(tokens)
    {
      matched := Check(kind);
      if matched {
        Advance();
      }
    }

    method Consume(kind: TokenType, message: string) returns (r: Outcome<()>)
      requires Valid() && !kind.EoF?
      modifies this, lexer
      ensures Valid() && Agrees(r, Grammar.Consume(old(tokens), kind, message), tokens)
    {
      if Check(kind) {
        Advance();
        return Value(());
      }
      return Throw(message);
    }

    method ParseExpression() returns (r: Outcome<Expr>)
      requires Valid()
      modifies this, lexer
      ensures Valid() && Agrees(r, Grammar.ParseExpression(old(tokens)), tokens)
      decreases |tokens|, 10
    {
      if StartsExpression(current.kind) {
        r := ParseOrExpression();
      } else {
        r := Throw("Expected expression");
      }
    }

    method ParseOrExpression() returns (r: Outcome<Expr>)
      requires Valid()
      modifies this, lexer
      ensures Valid() && Agrees(r, ParseLevel(OR_LEVEL, old(tokens)), tokens)
      decreases |tokens|, 7
    {
      hide Valid, Lexer.Valid, ParseLevel, ParseChain, OperatorAt;
      LevelStart(OR_LEVEL, tokens);
      var left :- ParseAndExpression();
      ghost var whole := ParseLevel(OR_LEVEL, old(tokens));
      while Check(Or)
        invariant Valid() && |tokens| < |old(tokens)|
        invariant ParseChain(OR_LEVEL, left, tokens) == whole
        decreases |tokens|
      {
        LogicOperator(current.kind);
        ChainTurn(OR_LEVEL, left, tokens);
        Advance();
        var right :- ParseAndExpression();
        left := Binary(OpOr, left, right);
      }
      LogicOperator(current.kind);
      ChainEnd(OR_LEVEL, left, tokens);
      return Value(left);
    }

    method ParseAndExpression() returns (r: Outcome<Expr>)
      requires Valid()
      modifies this, lexer
      ensures Valid() && Agrees(r, ParseLevel(AND_LEVEL, old(tokens)), tokens)
      decreases |tokens|, 6
    {
      hide Valid, Lexer.Valid, ParseLevel, ParseChain, OperatorAt;
      LevelStart(AND_LEVEL, tokens);
      var left :- ParseComparisonExpression();
      ghost var whole := ParseLevel(AND_LEVEL, old(tokens));
      while Check(And)
        invariant Valid() && |tokens| < |old(tokens)|
        invariant ParseChain(AND_LEVEL, left, tokens) == whole
        decreases |tokens|
      {
        LogicOperator(current.kind);
        ChainTurn(AND_LEVEL, left, tokens);
        Advance();
        var right :- ParseComparisonExpression();
        left := Binary(OpAnd, left, right);
      }
      LogicOperator(current.kind);
      ChainEnd(AND_LEVEL, left, tokens);
      return Value(left);
    }

    method ParseComparisonExpression() returns (r: Outcome<Expr>)
      requires Valid()
      modifies this, lexer
      ensures Valid() && Agrees(r, ParseLevel(COMPARISON, old(tokens)), tokens)
      decreases |tokens|, 5
    {
      hide Valid, Lexer.Valid, ParsePredicate;
      var left :- ParseAdditiveExpression();
      ghost var whole := ParseComparison(left, tokens);
      var op := OperatorAt(COMPARISON, current.kind);
      if op.Some? {
        Advance();
        var right :- ParseAdditiveExpression();
        return Value(Binary(op.value, left, right));
      }
      if StartsPredicate(current.kind) {
        r := ParsePredicateExpression(left, false);
      } else if Check(Not) {
        Advance();
        if StartsPredicate(current.kind) {
          r := ParsePredicateExpression(left, true);
        } else {
          r := Throw("Unexpected IN, BETWEEN, LIKE after NOT");
        }
      } else {
        r := Value(left);
      }
    }

    method ParseAdditiveExpression() returns (r: Outcome<Expr>)
      requires Valid()
      modifies this, lexer
      ensures Valid() && Agrees(r, ParseLevel(ADDITIVE, old(tokens)), tokens)
      decreases |tokens|, 4
    {
      hide Valid, Lexer.Valid, ParseLevel, ParseChain, OperatorAt;
      LevelStart(ADDITIVE, tokens);
      var left :- ParseMultiplicativeExpression();
      ghost var whole := ParseLevel(ADDITIVE, old(tokens));
      while OperatorAt(ADDITIVE, current.kind).Some?
        invariant Valid() && |tokens| < |old(tokens)|
        invariant ParseChain(ADDITIVE, left, tokens) == whole
        decreases |tokens|
      {
        ChainTurn(ADDITIVE, left, tokens);
        var op := OperatorAt(ADDITIVE, current.kind).value;
        Advance();
        var right :- ParseMultiplicativeExpression();
        left := Binary(op, left, right);
      }
      ChainEnd(ADDITIVE, left, tokens);
      return Value(left);
    }

    method ParseMultiplicativeExpression() returns (r: Outcome<Expr>)
      requires Valid()
      modifies this, lexer
      ensures Valid() && Agrees(r, ParseLevel(MULTIPLICATIVE, old(tokens)), tokens)
      decreases |tokens|, 3
    {
      hide Valid, Lexer.Valid, ParseLevel, ParseChain, OperatorAt;
      LevelStart(MULTIPLICATIVE, tokens);
      var left :- ParseUnaryExpression();
      ghost var whole := ParseLevel(MULTIPLICATIVE, old(tokens));
      while OperatorAt(MULTIPLICATIVE, current.kind).Some?
        invariant Valid() && |tokens| < |old(tokens)|
        invariant ParseChain(MULTIPLICATIVE, left, tokens) == whole
        decreases |tokens|
      {
        ChainTurn(MULTIPLICATIVE, left, tokens);
        LevelStart(MULTIPLICATIVE, Grammar.Advance(tokens));
        var op := OperatorAt(MULTIPLICATIVE, current.kind).value;
        Advance();
        var right :- ParseUnaryExpression();
        left := Binary(op, left, right);
      }
      ChainEnd(MULTIPLICATIVE, left, tokens);
      return Value(left);
    }

    method ParseUnaryExpression() returns (r: Outcome<Expr>)
      requires Valid()
      modifies this, lexer
      ensures Valid() && Agrees(r, ParseUnary(old(tokens)), tokens)
      decreases |tokens|, 2
    {
      hide Valid, Lexer.Valid, ParsePrimary, ParseUnary;
      UnaryTurn(tokens);
      var op := UnaryAt(current.kind);
      if op.Some? {
        Advance();
        var operand :- ParseUnaryExpression();
        return Value(Unary(op.value, operand));
      }
      r := ParsePrimaryExpression();
    }

    method ParsePrimaryExpression() returns (r: Outcome<Expr>)
      requires Valid()
      modifies this, lexer
      ensures Valid() && Agrees(r, ParsePrimary(old(tokens)), tokens)
      decreases |tokens|, 1
    {
      hide Valid, Lexer.Valid, Grammar.ParseExpression, Grammar.ParseArguments, ParseColumn;
      var token := current;
      if token.kind.IntegerLiteral? {
        Advance();
        var n := ReadNumber(token.value, MAX_INT64);
        return if n.Some? then Value(IntLit(n.value)) else Throw("Invalid integer literal");
      } else if token.kind.FloatLiteral? {
        Advance();
        return Value(FloatLit(token.value));
      } else if token.kind.StringLiteral? {
        Advance();
        return Value(StringLit(token.value));
      } else if token.kind.True? {
        Advance();
        return Value(BoolLit(true));
      } else if token.kind.False? {
        Advance();
        return Value(BoolLit(false));
      } else if token.kind.Null? {
        Advance();
        return Value(NullLit);
      } else if token.kind.Identifier? {
        Advance();
        if Check(LeftParen) {
          r := ParseFunctionCallExpression(token.value);
        } else {
          r := ParseColumnReferenceExpression(token.value);
        }
      } else if token.kind.LeftParen? {
        Advance();
        var expression :- ParseExpression();
        var _ :- Consume(RightParen, "Expected ')' after expression");
        return Value(expression);
      } else if token.kind.LeftBracket? {
        Advance();
        var elements :- ParseArguments(RightBracket, "Expected ']' after vector elements");
        return Value(Vector(elements));
      } else {
        return Throw("Expected primary expression");
      }
    }

    method ParseFunctionCallExpression(name: string) returns (r: Outcome<Expr>)
      requires Valid()
      modifies this, lexer
      ensures Valid() && Agrees(r, ParseCall(name, old(tokens)), tokens)
      decreases |tokens|, 0
    {
      hide Valid, Lexer.Valid, Grammar.ParseArguments;
      var _ :- Consume(LeftParen, "Expected '(' after function name");
      var arguments :- ParseArguments(RightParen, "Expected ')' after function arguments");
      return Value(FunctionCall(name, arguments));
    }

    method ParseColumnReferenceExpression(first: string) returns (r: Outcome<Expr>)
      requires Valid()
      modifies this, lexer
      ensures Valid() && Agrees(r, ParseColumn(first, old(tokens)), tokens)
    {
      hide Valid, Lexer.Valid;
      var dot := Match(Dot);
      if !dot {
        return Value(ColumnRef(None, None, first));
      }
      if !Check(Identifier) {
        return Throw("Expected identifier after '.'");
      }
      var second := current.value;
      Advance();
      dot := Match(Dot);
      if !dot {
        return Value(ColumnRef(None, Some(first), second));
      }
      if !Check(Identifier) {
        return Throw("Expected identifier after second '.'");
      }
      var third := current.value;
      Advance();
      return Value(ColumnRef(Some(first), Some(second), third));
    }

    /** The comma-separated list of a call, an IN or a vector, up to and including the closing token. */
    method ParseArguments(close: TokenType, message: string) returns (r: Outcome<seq<Expr>>)
      requires Valid() && !close.EoF?
      modifies this, lexer
      ensures Valid() && Agrees(r, Grammar.ParseArguments(old(tokens), close, message), tokens)
      decreases |tokens|, 12
    {
      hide Valid, Lexer.Valid, ParseList;
      var values := [];
      if !Check(close) {
        values :- ParseExpressions();
      }
      var _ :- Consume(close, message);
      return Value(values);
    }

    /** The do-while loop over expressions that every list of them runs. */
    method ParseExpressions() returns (r: Outcome<seq<Expr>>)
      requires Valid()
      modifies this, lexer
      ensures Valid() && Agrees(r, ParseList(old(tokens)), tokens)
      decreases |tokens|, 11
    {
      hide Valid, Lexer.Valid, Grammar.ParseExpression, ParseSeparated, InLoop;
      ListIsSeparated(tokens);
      ghost var whole := ParseSeparated(Grammar.ParseExpression, tokens);
      LoopStart(Grammar.ParseExpression, tokens);
      var values: seq<Expr>, more := [], true;
      while more
        invariant Valid() && |tokens| <= |old(tokens)|
        invariant InLoop(Grammar.ParseExpression, whole, values, more, tokens)
        decreases more, |tokens|
      {
        LoopTurn(Grammar.ParseExpression, whole, values, tokens);
        var value :- ParseExpression();
        values := values + [value];
        more := Match(Comma);
      }
      LoopEnd(Grammar.ParseExpression, whole, values, tokens);
      return Value(values);
    }

    method ParsePredicateExpression(left: Expr, isNot: bool) returns (r: Outcome<Expr>)
      requires Valid() && StartsPredicate(current.kind)
      modifies this, lexer
      ensures Valid() && Agrees(r, ParsePredicate(left, old(tokens), isNot), tokens)
      decreases |tokens|, 1
    {
      if Check(In) {
        r := ParseInExpression(left, isNot);
      } else if Check(Between) {
        r := ParseBetweenExpression(left, isNot);
      } else {
        r := ParseLikeExpression(left, isNot);
      }
    }

    method ParseInExpression(left: Expr, isNot: bool) returns (r: Outcome<Expr>)
      requires Valid() && Check(In)
      modifies this, lexer
      ensures Valid() && Agrees(r, ParsePredicate(left, old(tokens), isNot), tokens)
      decreases |tokens|, 0
    {
      hide Valid, Lexer.Valid, Grammar.ParseArguments, ParsePredicate;
      InTurn(left, tokens, isNot);
      Advance();
      var _ :- Consume(LeftParen, "Expected '(' after IN");
      var values :- ParseArguments(RightParen, "Expected ')' after IN values");
      return Value(InExpr(left, values, isNot));
    }

    method ParseBetweenExpression(left: Expr, isNot: bool) returns (r: Outcome<Expr>)
      requires Valid() && Check(Between)
      modifies this, lexer
      ensures Valid() && Agrees(r, ParsePredicate(left, old(tokens), isNot), tokens)
      decreases |tokens|, 0
    {
      hide Valid, Lexer.Valid, Grammar.ParseExpression, ParsePredicate;
      BetweenTurn(left, tokens, isNot);
      Advance();
      var start :- ParseExpression();
      var _ :- Consume(And, "Expected AND after BETWEEN start value");
      var end :- ParseExpression();
      return Value(BetweenExpr(left, start, end, isNot));
    }

    method ParseLikeExpression(left: Expr, isNot: bool) returns (r: Outcome<Expr>)
      requires Valid() && Check(Like)
      modifies this, lexer
      ensures Valid() && Agrees(r, ParsePredicate(left, old(tokens), isNot), tokens)
      decreases |tokens|, 0
    {
      hide Valid, Lexer.Valid, Grammar.ParseExpression;
      Advance();
      var pattern :- ParseExpression();
      return Value(LikeExpr(left, pattern, isNot));
    }

    // Statements.

    method ParseName(message: string) returns (r: Outcome<string>)
      requires Valid()
      modifies this, lexer
      ensures Valid() && Agrees(r, StatementGrammar.ParseName(old(tokens), message), tokens)
    {
      if !Check(Identifier) {
        return Throw(message);
      }
      r := Value(current.value);
      Advance();
    }

    /** WHERE and HAVING. */
    method ParseClause(keyword: TokenType) returns (r: Outcome<Option<Expr>>)
      requires Valid() && !keyword.EoF?
      modifies this, lexer
      ensures Valid() && Agrees(r, StatementGrammar.ParseClause(keyword, old(tokens)), tokens)
    {
      hide Valid, Lexer.Valid, Grammar.ParseExpression;
      var present := Match(keyword);
      if !present {
        return Value(None);
      }
      var e :- ParseExpression();
      return Value(Some(e));
    }

    /** LIMIT and OFFSET. */
    method ParseCount(keyword: TokenType, expected: string, invalid: string) returns (r: Outcome<Option<nat>>)
      requires Valid() && !keyword.EoF?
      modifies this, lexer
      ensures Valid() && Agrees(r, StatementGrammar.ParseCount(keyword, expected, invalid, old(tokens)), tokens)
    {
      var present := Match(keyword);
      if !present {
        return Value(None);
      }
      if !Check(IntegerLiteral) {
        return Throw(expected);
      }
      var n := ReadNumber(current.value, MAX_UINT64);
      if n.None? {
        return Throw(invalid);
      }
      Advance();
      return Value(n);
    }

    method ParseSelectItem() returns (r: Outcome<SelectItem>)
      requires Valid()
      modifies this, lexer
      ensures Valid() && Agrees(r, StatementGrammar.ParseSelectItem(old(tokens)), tokens)
    {
      hide Valid, Lexer.Valid, Grammar.ParseExpression;
      var star := Match(Star);
      if star {
        return Value(StarItem);
      }
      var expression :- ParseExpression();
      var aliased := Match(As);
      if !aliased {
        return Value(ExprItem(expression, None));
      }
      var alias :- ParseName("Expected alias after AS");
      return Value(ExprItem(expression, Some(alias)));
    }

    method ParseSelectItems() returns (r: Outcome<seq<SelectItem>>)
      requires Valid()
      modifies this, lexer
      ensures Valid() && Agrees(r, ParseSeparated(StatementGrammar.ParseSelectItem, old(tokens)), tokens)
    {
      hide Valid, Lexer.Valid, StatementGrammar.ParseSelectItem, ParseSeparated, InLoop;
      ghost var whole := ParseSeparated(StatementGrammar.ParseSelectItem, tokens);
      LoopStart(StatementGrammar.ParseSelectItem, tokens);
      var items: seq<SelectItem>, more := [], true;
      while more
        invariant Valid() && InLoop(StatementGrammar.ParseSelectItem, whole, items, more, tokens)
        decreases more, |tokens|
      {
        LoopTurn(StatementGrammar.ParseSelectItem, whole, items, tokens);
        var item :- ParseSelectItem();
        items := items + [item];
        more := Match(Comma);
      }
      LoopEnd(StatementGrammar.ParseSelectItem, whole, items, tokens);
      return Value(items);
    }

    method ParseOrderItem() returns (r: Outcome<OrderByItem>)
      requires Valid()
      modifies this, lexer
      ensures Valid() && Agrees(r, StatementGrammar.ParseOrderItem(old(tokens)), tokens)
    {
      hide Valid, Lexer.Valid, Grammar.ParseExpression, Text;
      var expression :- ParseExpression();
      var descending := Match(Desc);
      if descending {
        return Value(OrderByItem(expression, DESC));
      }
      var _ := Match(Asc);
      return Value(OrderByItem(expression, ASC));
    }

    /** The items of ORDER BY, one after another. */
    method ParseOrderItems() returns (r: Outcome<seq<OrderByItem>>)
      requires Valid()
      modifies this, lexer
      ensures Valid() && Agrees(r, ParseSeparated(StatementGrammar.ParseOrderItem, old(tokens)), tokens)
    {
      hide Valid, Lexer.Valid, StatementGrammar.ParseOrderItem, ParseSeparated, InLoop;
      ghost var whole := ParseSeparated(StatementGrammar.ParseOrderItem, tokens);
      LoopStart(StatementGrammar.ParseOrderItem, tokens);
      var items: seq<OrderByItem>, more := [], true;
      while more
        invariant Valid() && InLoop(StatementGrammar.ParseOrderItem, whole, items, more, tokens)
        decreases more, |tokens|
      {
        LoopTurn(StatementGrammar.ParseOrderItem, whole, items, tokens);
        var item :- ParseOrderItem();
        items := items + [item];
        more := Match(Comma);
      }
      LoopEnd(StatementGrammar.ParseOrderItem, whole, items, tokens);
      return Value(items);
    }

    method ParseOrderBy() returns (r: Outcome<seq<OrderByItem>>)
      requires Valid()
      modifies this, lexer
      ensures Valid() && Agrees(r, StatementGrammar.ParseOrderBy(old(tokens)), tokens)
    {
      hide Valid, Lexer.Valid, StatementGrammar.ParseOrderItem, ParseSeparated, Kind, Text, Grammar.Consume;
      var present := Match(Order);
      if !present {
        return Value([]);
      }
      var _ :- Consume(By, "Expected BY after ORDER");
      r := ParseOrderItems();
    }

    method ParseGroupBy() returns (r: Outcome<seq<Expr>>)
      requires Valid()
      modifies this, lexer
      ensures Valid() && Agrees(r, StatementGrammar.ParseGroupBy(old(tokens)), tokens)
    {
      hide Valid, Lexer.Valid, ParseList;
      var present := Match(Group);
      if !present {
        return Value([]);
      }
      var _ :- Consume(By, "Expected BY after GROUP");
      r := ParseExpressions();
    }

    method ParseSelectStatement() returns (r: Outcome<Statement>)
      requires Valid()
      modifies this, lexer
      ensures Valid() && Agrees(r, ParseSelect(old(tokens)), tokens)
    {
      hide Valid, Lexer.Valid, ParseSeparated, StatementGrammar.ParseGroupBy, StatementGrammar.ParseOrderBy,
           StatementGrammar.ParseClause, StatementGrammar.ParseCount, StatementGrammar.ParseName,
           Grammar.Advance, Kind, Text;
      Advance();
      var items :- ParseSelectItems();
      var _ :- Consume(From, "Expected FROM after select items");
      var collection :- ParseName("Expected collection_name after FROM");
      var condition :- ParseClause(Where);
      var groupBy :- ParseGroupBy();
      var having :- ParseClause(Having);
      var orderBy :- ParseOrderBy();
      var limit :- ParseCount(Limit, "Expected integer literal after LIMIT", "Invalid integer literal for LIMIT");
      var offset :- ParseCount(Offset, "Expected integer literal after OFFSET", "Invalid integer literal for OFFSET");
      return Value(SelectStmt(collection, items, condition, groupBy, having, orderBy, limit, offset));
    }

    method ParseColumnName() returns (r: Outcome<string>)
      requires Valid()
      modifies this, lexer
      ensures Valid() && Agrees(r, StatementGrammar.ParseColumnName(old(tokens)), tokens)
    {
      r := ParseName("Expected column_name after '('");
    }

    /** The names of a column list, one after another. */
    method ParseNames() returns (r: Outcome<seq<string>>)
      requires Valid()
      modifies this, lexer
      ensures Valid() && Agrees(r, ParseSeparated(StatementGrammar.ParseColumnName, old(tokens)), tokens)
    {
      hide Valid, Lexer.Valid, StatementGrammar.ParseColumnName, ParseSeparated, InLoop;
      ghost var whole := ParseSeparated(StatementGrammar.ParseColumnName, tokens);
      LoopStart(StatementGrammar.ParseColumnName, tokens);
      var names: seq<string>, more := [], true;
      while more
        invariant Valid() && InLoop(StatementGrammar.ParseColumnName, whole, names, more, tokens)
        decreases more, |tokens|
      {
        LoopTurn(StatementGrammar.ParseColumnName, whole, names, tokens);
        var name :- ParseColumnName();
        names := names + [name];
        more := Match(Comma);
      }
      LoopEnd(StatementGrammar.ParseColumnName, whole, names, tokens);
      return Value(names);
    }

    method ParseColumnNames() returns (r: Outcome<seq<string>>)
      requires Valid()
      modifies this, lexer
      ensures Valid() && Agrees(r, StatementGrammar.ParseColumnNames(old(tokens)), tokens)
    {
      hide Valid, Lexer.Valid, StatementGrammar.ParseColumnName, ParseSeparated;
      var present := Match(LeftParen);
      if !present {
        return Value([]);
      }
      var names :- ParseNames();
      var _ :- Consume(RightParen, "Expected ')' after column_names");
      return Value(names);
    }

    method ParseValueList() returns (r: Outcome<seq<Expr>>)
      requires Valid()
      modifies this, lexer
      ensures Valid() && Agrees(r, StatementGrammar.ParseValueList(old(tokens)), tokens)
    {
      hide Valid, Lexer.Valid, ParseList, Grammar.Consume, Kind, Text, Grammar.Advance;
      var _ :- Consume(Values, "Expected VALUES after INTO");
      var _ :- Consume(LeftParen, "Expected '(' after VALUES");
      var values :- ParseExpressions();
      var _ :- Consume(RightParen, "Expected ')' after values");
      return Value(values);
    }

    method ParseInsertStatement() returns (r: Outcome<Statement>)
      requires Valid()
      modifies this, lexer
      ensures Valid() && Agrees(r, ParseInsert(old(tokens)), tokens)
    {
      hide Valid, Lexer.Valid, StatementGrammar.ParseColumnNames, StatementGrammar.ParseName,
           StatementGrammar.ParseValueList, Grammar.Advance, Grammar.Consume;
      Advance();
      var _ :- Consume(Into, "Expected INTO after INSERT");
      var collection :- ParseName("Expected collection_name after INTO");
      var columns :- ParseColumnNames();
      var values :- ParseValueList();
      return Value(InsertStmt(collection, columns, values));
    }

    method ParseAssignment() returns (r: Outcome<Assignment>)
      requires Valid()
      modifies this, lexer
      ensures Valid() && Agrees(r, StatementGrammar.ParseAssignment(old(tokens)), tokens)
    {
      hide Valid, Lexer.Valid, Grammar.ParseExpression, StatementGrammar.ParseName;
      var column :- ParseName("Expected column_name before =");
      var _ :- Consume(Equal, "Expected = after column_name");
      var value :- ParseExpression();
      return Value(Assignment(column, value));
    }

    /** The assignments of SET, one after another. */
    method ParseAssignments() returns (r: Outcome<seq<Assignment>>)
      requires Valid()
      modifies this, lexer
      ensures Valid() && Agrees(r, ParseSeparated(StatementGrammar.ParseAssignment, old(tokens)), tokens)
    {
      hide Valid, Lexer.Valid, StatementGrammar.ParseAssignment, ParseSeparated, InLoop;
      ghost var whole := ParseSeparated(StatementGrammar.ParseAssignment, tokens);
      LoopStart(StatementGrammar.ParseAssignment, tokens);
      var assignments: seq<Assignment>, more := [], true;
      while more
        invariant Valid() && InLoop(StatementGrammar.ParseAssignment, whole, assignments, more, tokens)
        decreases more, |tokens|
      {
        LoopTurn(StatementGrammar.ParseAssignment, whole, assignments, tokens);
        var assignment :- ParseAssignment();
        assignments := assignments + [assignment];
        more := Match(Comma);
      }
      LoopEnd(StatementGrammar.ParseAssignment, whole, assignments, tokens);
      return Value(assignments);
    }

    method ParseUpdateStatement() returns (r: Outcome<Statement>)
      requires Valid()
      modifies this, lexer
      ensures Valid() && Agrees(r, ParseUpdate(old(tokens)), tokens)
    {
      hide Valid, Lexer.Valid, StatementGrammar.ParseAssignment, StatementGrammar.ParseName,
           StatementGrammar.ParseClause, ParseSeparated;
      Advance();
      var collection :- ParseName("Expected collection_name after UPDATE");
      var _ :- Consume(Set, "Expected SET after UPDATE");
      var assignments :- ParseAssignments();
      var condition :- ParseClause(Where);
      return Value(UpdateStmt(collection, assignments, condition));
    }

    method ParseDeleteStatement() returns (r: Outcome<Statement>)
      requires Valid()
      modifies this, lexer
      ensures Valid() && Agrees(r, ParseDelete(old(tokens)), tokens)
    {
      hide Valid, Lexer.Valid, StatementGrammar.ParseName, StatementGrammar.ParseClause;
      Advance();
      var _ :- Consume(From, "Expected FROM after DELETE");
      var collection :- ParseName("Expected collection_name after FROM");
      var condition :- ParseClause(Where);
      return Value(DeleteStmt(collection, condition));
    }

    method ParseStatement() returns (r: Outcome<Statement>)
      requires Valid()
      modifies this, lexer
      ensures Valid() && Agrees(r, StatementGrammar.ParseStatement(old(tokens)), tokens)
    {
      hide Valid, Lexer.Valid, ParseSelect, ParseInsert, ParseUpdate, ParseDelete;
      if Check(Select) {
        r := ParseSelectStatement();
      } else if Check(Insert) {
        r := ParseInsertStatement();
      } else if Check(Update) {
        r := ParseUpdateStatement();
      } else if Check(Delete) {
        r := ParseDeleteStatement();
      } else if StartsDefinition(current.kind) {
        r := Throw(NOT_MODELLED);
      } else {
        r := Throw("Unexpected token");
      }
    }

    /** Reads the first token. */
    method Start()
      requires lexer.Valid()
      modifies this, lexer
      ensures Valid() && tokens == old(lexer.tokens)
    {
      tokens := lexer.tokens;
      current := lexer.Next();
    }

    /** Parses the whole input; nothing at all gives no statement. */
    method Parse() returns (r: Outcome<Option<Statement>>)
      requires lexer.Valid()
      modifies this, lexer
      ensures Valid() && Agrees(r, ParseInput(old(lexer.tokens)), tokens) && (r.Value? ==> tokens == [])
    {
      hide Valid, Lexer.Valid, StatementGrammar.ParseStatement;
      Start();
      if Check(EoF) {
        NothingAfterEnd();
        return Value(None);
      }
      var statement :- ParseStatement();
      var _ := Match(Semicolon);
      if !Check(EoF) {
        return Throw("Unexpected token");
      }
      NothingAfterEnd();
      return Value(Some(statement));
    }
  }

  /** A parser made for a text and run: it lexes the text and applies the grammar. */
  method ParseText(input: string) returns (r: Outcome<Option<Statement>>)
    ensures match ParseInput(Lexemes(input))
            case Ok(statement, rest) => r == Value(statement) && rest == []
            case Fail(message) => r == Throw(message)
  {
    var parser := new Parser(input);
    r := parser.Parse();
  }
}
