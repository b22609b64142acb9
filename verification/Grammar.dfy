/**
 * The expression grammar as functions on the list of tokens not yet consumed.
 * The methods of Parser.Parser are proved to compute exactly these functions.
 */
module Grammar {
  import opened Wrappers
  import opened Tokens
  import opened Ast

  datatype Parse<+T> = Ok(value: T, rest: seq<Lexeme>) | Fail(message: string) {
    predicate IsFailure() { Fail? }
    function PropagateFailure<U>(): Parse<U> requires Fail? { Fail(message) }
    function Extract(): (T, seq<Lexeme>) requires Ok? { (value, rest) }
  }

  /** The current token; past the end the lexer keeps answering EoF. */
  function Kind(ts: seq<Lexeme>): TokenType {
    if ts == [] then EoF else ts[0].kind
  }

  function Text(ts: seq<Lexeme>): string {
    if ts == [] then "" else ts[0].value
  }

  function Advance(ts: seq<Lexeme>): seq<Lexeme> {
    if ts == [] then [] else ts[1..]
  }

  function Consume(ts: seq<Lexeme>, kind: TokenType, message: string): (r: Parse<()>)
    ensures r.Ok? && kind != EoF ==> |r.rest| < |ts|
  {
    if Kind(ts) == kind then Ok((), Advance(ts)) else Fail(message)
  }

  predicate StartsExpression(kind: TokenType) {
    || kind.IntegerLiteral? || kind.FloatLiteral? || kind.StringLiteral? || kind.True? || kind.False? || kind.Null?
    || kind.Identifier? || kind.Plus? || kind.Minus? || kind.Not? || kind.LeftParen? || kind.LeftBracket?
  }

  predicate StartsPredicate(kind: TokenType) {
    kind.In? || kind.Between? || kind.Like?
  }

  // The grammar levels, lowest first.  Level 0 is unary.
  const MULTIPLICATIVE := 1
  const ADDITIVE := 2
  const COMPARISON := 3
  const AND_LEVEL := 4
  const OR_LEVEL := 5

  function LevelOf(op: BinaryOp): (level: nat)
    ensures MULTIPLICATIVE <= level <= OR_LEVEL
  {
    match op
    case OpMultiply | OpDivide | OpModulo => MULTIPLICATIVE
    case OpPlus | OpMinus => ADDITIVE
    case OpAnd => AND_LEVEL
    case OpOr => OR_LEVEL
    case _ => COMPARISON
  }

  function BinaryOperator(kind: TokenType): Option<BinaryOp> {
    if kind.Star? then Some(OpMultiply)
    else if kind.Slash? then Some(OpDivide)
    else if kind.Modulo? then Some(OpModulo)
    else if kind.Plus? then Some(OpPlus)
    else if kind.Minus? then Some(OpMinus)
    else if kind.Equal? then Some(OpEqual)
    else if kind.NotEqual? then Some(OpNotEqual)
    else if kind.LessThan? then Some(OpLessThan)
    else if kind.GreaterThan? then Some(OpGreaterThan)
    else if kind.LessEqual? then Some(OpLessEqual)
    else if kind.GreaterEqual? then Some(OpGreaterEqual)
    else if kind.And? then Some(OpAnd)
    else if kind.Or? then Some(OpOr)
    else None
  }

  /** The binary operator a token stands for at a level. */
  function OperatorAt(level: nat, kind: TokenType): Option<BinaryOp> {
    var op := BinaryOperator(kind);
    if op.Some? && LevelOf(op.value) == level then op else None
  }

  function UnaryAt(kind: TokenType): Option<UnaryOp> {
    if kind.Plus? then Some(UnaryPlus)
    else if kind.Minus? then Some(UnaryMinus)
    else if kind.Not? then Some(UnaryNot)
    else None
  }

  function ParseExpression(ts: seq<Lexeme>): (r: Parse<Expr>)
    ensures r.Ok? ==> |r.rest| < |ts|
    decreases |ts|, 10
  {
    if StartsExpression(Kind(ts)) then ParseLevel(OR_LEVEL, ts) else Fail("Expected expression")
  }

  /** An operand of the given level: a left-associative chain, except at the comparison level. */
  function ParseLevel(level: nat, ts: seq<Lexeme>): (r: Parse<Expr>)
    requires level <= OR_LEVEL
    ensures r.Ok? ==> |r.rest| < |ts|
    decreases |ts|, level + 2
  {
    if level == 0 then ParseUnary(ts)
    else
      var left := ParseLevel(level - 1, ts);
      if left.Fail? then left
      else if level == COMPARISON then ParseComparison(left.value, left.rest)
      else ParseChain(level, left.value, left.rest)
  }

  /** The left-associative loop: fold in operands as long as an operator of the level follows. */
  function ParseChain(level: nat, left: Expr, ts: seq<Lexeme>): (r: Parse<Expr>)
    requires 0 < level <= OR_LEVEL && level != COMPARISON
    ensures r.Ok? ==> |r.rest| <= |ts|
    decreases |ts|, level + 1
  {
    var op := OperatorAt(level, Kind(ts));
    if op.None? then Ok(left, ts)
    else
      var right := ParseLevel(level - 1, Advance(ts));
      if right.Fail? then right else ParseChain(level, Binary(op.value, left, right.value), right.rest)
  }

  /** What may follow an additive expression: one comparison, IN, BETWEEN or LIKE, possibly negated. */
  function ParseComparison(left: Expr, ts: seq<Lexeme>): (r: Parse<Expr>)
    ensures r.Ok? ==> |r.rest| <= |ts|
    decreases |ts|, 1
  {
    var op := OperatorAt(COMPARISON, Kind(ts));
    if op.Some? then
      var right := ParseLevel(ADDITIVE, Advance(ts));
      if right.Fail? then right else Ok(Binary(op.value, left, right.value), right.rest)
    else if StartsPredicate(Kind(ts)) then ParsePredicate(left, ts, false)
    else if !Kind(ts).Not? then Ok(left, ts)
    else if StartsPredicate(Kind(Advance(ts))) then ParsePredicate(left, Advance(ts), true)
    else Fail("Unexpected IN, BETWEEN, LIKE after NOT")
  }

  function ParsePredicate(left: Expr, ts: seq<Lexeme>, isNot: bool): (r: Parse<Expr>)
    requires StartsPredicate(Kind(ts))
    ensures r.Ok? ==> |r.rest| < |ts|
    decreases |ts|, 0
  {
    if Kind(ts).In? then
      if !Kind(Advance(ts)).LeftParen? then Fail("Expected '(' after IN")
      else
        var values := ParseArguments(Advance(Advance(ts)), RightParen, "Expected ')' after IN values");
        if values.Fail? then Fail(values.message) else Ok(InExpr(left, values.value, isNot), values.rest)
    else if Kind(ts).Between? then
      var start := ParseExpression(Advance(ts));
      if start.Fail? then start
      else if !Kind(start.rest).And? then Fail("Expected AND after BETWEEN start value")
      else
        var end := ParseExpression(Advance(start.rest));
        if end.Fail? then end else Ok(BetweenExpr(left, start.value, end.value, isNot), end.rest)
    else
      var pattern := ParseExpression(Advance(ts));
      if pattern.Fail? then pattern else Ok(LikeExpr(left, pattern.value, isNot), pattern.rest)
  }

  function ParseUnary(ts: seq<Lexeme>): (r: Parse<Expr>)
    ensures r.Ok? ==> |r.rest| < |ts|
    decreases |ts|, 1
  {
    var op := UnaryAt(Kind(ts));
    if op.None? then ParsePrimary(ts)
    else
      var operand := ParseUnary(Advance(ts));
      if operand.Fail? then operand else Ok(Unary(op.value, operand.value), operand.rest)
  }

  function ParsePrimary(ts: seq<Lexeme>): (r: Parse<Expr>)
    ensures r.Ok? ==> |r.rest| < |ts|
    decreases |ts|, 0
  {
    var kind := Kind(ts);
    if kind.IntegerLiteral? then
      var n := ReadNumber(Text(ts), MAX_INT64);
      if n.Some? then Ok(IntLit(n.value), Advance(ts)) else Fail("Invalid integer literal")
    else if kind.FloatLiteral? then Ok(FloatLit(Text(ts)), Advance(ts))
    else if kind.StringLiteral? then Ok(StringLit(Text(ts)), Advance(ts))
    else if kind.True? then Ok(BoolLit(true), Advance(ts))
    else if kind.False? then Ok(BoolLit(false), Advance(ts))
    else if kind.Null? then Ok(NullLit, Advance(ts))
    else if kind.Identifier? then ParseNamed(Text(ts), Advance(ts))
    else if kind.LeftParen? then
      var inside := ParseExpression(Advance(ts));
      if inside.Fail? then inside
      else if !Kind(inside.rest).RightParen? then Fail("Expected ')' after expression")
      else Ok(inside.value, Advance(inside.rest))
    else if kind.LeftBracket? then
      var elements := ParseArguments(Advance(ts), RightBracket, "Expected ']' after vector elements");
      if elements.Fail? then Fail(elements.message) else Ok(Vector(elements.value), elements.rest)
    else Fail("Expected primary expression")
  }

  /** What an identifier begins: a call if a parenthesis follows, otherwise a column reference. */
  function ParseNamed(name: string, ts: seq<Lexeme>): (r: Parse<Expr>)
    ensures r.Ok? ==> |r.rest| <= |ts|
    decreases |ts|, 13
  {
    if !Kind(ts).LeftParen? then ParseColumn(name, ts)
    else
      var arguments := ParseArguments(Advance(ts), RightParen, "Expected ')' after function arguments");
      if arguments.Fail? then Fail(arguments.message) else Ok(FunctionCall(name, arguments.value), arguments.rest)
  }

  /** The dotted remainder of a column reference. */
  function ParseColumn(first: string, ts: seq<Lexeme>): (r: Parse<Expr>)
    ensures r.Ok? ==> |r.rest| <= |ts|
  {
    if !Kind(ts).Dot? then Ok(ColumnRef(None, None, first), ts)
    else if !Kind(Advance(ts)).Identifier? then Fail("Expected identifier after '.'")
    else
      var second, rest := Text(Advance(ts)), Advance(Advance(ts));
      if !Kind(rest).Dot? then Ok(ColumnRef(None, Some(first), second), rest)
      else if !Kind(Advance(rest)).Identifier? then Fail("Expected identifier after second '.'")
      else Ok(ColumnRef(Some(first), Some(second), Text(Advance(rest))), Advance(Advance(rest)))
  }

  /** A possibly empty comma-separated list up to and including its closing token. */
  function ParseArguments(ts: seq<Lexeme>, close: TokenType, message: string): (r: Parse<seq<Expr>>)
    requires close != EoF
    ensures r.Ok? ==> |r.rest| < |ts|
    decreases |ts|, 12
  {
    if Kind(ts) == close then Ok([], Advance(ts))
    else
      var list := ParseList(ts);
      if list.Fail? then list
      else if Kind(list.rest) != close then Fail(message)
      else Ok(list.value, Advance(list.rest))
  }

  /** One or more expressions separated by commas. */
  function ParseList(ts: seq<Lexeme>): (r: Parse<seq<Expr>>)
    ensures r.Ok? ==> |r.rest| < |ts| && r.value != []
    decreases |ts|, 11
  {
    var first := ParseExpression(ts);
    if first.Fail? then Fail(first.message)
    else if !Kind(first.rest).Comma? then Ok([first.value], first.rest)
    else
      var more := ParseList(Advance(first.rest));
      if more.Fail? then more else Ok([first.value] + more.value, more.rest)
  }
}
