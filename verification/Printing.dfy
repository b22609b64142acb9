/**
 * What the formatters print, as tokens.  Every function takes what follows the printed construct, so that
 * concatenation never has to be re-associated.
 */
module Printing {
  import opened Wrappers
  import opened Tokens
  import opened Ast

  function Name(text: string): Lexeme {
    Lexeme(Identifier, text)
  }

  const COMMA := Lexeme(Comma, ",")
  const LPAREN := Lexeme(LeftParen, "(")
  const RPAREN := Lexeme(RightParen, ")")
  const LBRACKET := Lexeme(LeftBracket, "[")
  const RBRACKET := Lexeme(RightBracket, "]")
  const DOT := Lexeme(Dot, ".")
  const NOT := Lexeme(Not, "NOT")
  const IN := Lexeme(In, "IN")

  function OperatorLexeme(op: BinaryOp): Lexeme {
    match op
    case OpPlus => Lexeme(Plus, "+")
    case OpMinus => Lexeme(Minus, "-")
    case OpMultiply => Lexeme(Star, "*")
    case OpDivide => Lexeme(Slash, "/")
    case OpModulo => Lexeme(Modulo, "%")
    case OpEqual => Lexeme(Equal, "=")
    case OpNotEqual => Lexeme(NotEqual, "!=")
    case OpLessThan => Lexeme(LessThan, "<")
    case OpGreaterThan => Lexeme(GreaterThan, ">")
    case OpLessEqual => Lexeme(LessEqual, "<=")
    case OpGreaterEqual => Lexeme(GreaterEqual, ">=")
    case OpAnd => Lexeme(And, "AND")
    case OpOr => Lexeme(Or, "OR")
  }

  function UnaryLexeme(op: UnaryOp): Lexeme {
    match op
    case UnaryNot => NOT
    case UnaryMinus => Lexeme(Minus, "-")
    case UnaryPlus => Lexeme(Plus, "+")
  }

  function Negation(isNot: bool, rest: seq<Lexeme>): seq<Lexeme> {
    if isNot then [NOT] + rest else rest
  }

  function Prefix(name: Option<string>, rest: seq<Lexeme>): seq<Lexeme> {
    if name.Some? then [Name(name.value)] + ([DOT] + rest) else rest
  }

  /** The tokens of a printed expression, followed by rest. */
  function Print(e: Expr, rest: seq<Lexeme>): (r: seq<Lexeme>)
    ensures |r| > |rest|
    decreases e
  {
    match e
    case IntLit(n) =>
      if n >= 0 then [Lexeme(IntegerLiteral, Decimal(n))] + rest
      else [Lexeme(Minus, "-")] + ([Lexeme(IntegerLiteral, Decimal(-n))] + rest)
    case FloatLit(text) => [Lexeme(FloatLiteral, text)] + rest
    case StringLit(s) => [Lexeme(StringLiteral, s)] + rest
    case BoolLit(b) => [if b then Lexeme(True, "TRUE") else Lexeme(False, "FALSE")] + rest
    case NullLit => [Lexeme(Null, "NULL")] + rest
    case ColumnRef(database, collection, column) =>
      Prefix(database, Prefix(collection, [Name(column)] + rest))
    case Unary(op, operand) => [UnaryLexeme(op)] + Print(operand, rest)
    case Binary(op, left, right) =>
      [LPAREN] + Print(left, [OperatorLexeme(op)] + Print(right, [RPAREN] + rest))
    case FunctionCall(name, arguments) => [Name(name)] + ([LPAREN] + PrintList(arguments, [RPAREN] + rest))
    case Vector(elements) => [LBRACKET] + PrintList(elements, [RBRACKET] + rest)
    case InExpr(left, values, isNot) =>
      Print(left, Negation(isNot, [IN] + ([LPAREN] + PrintList(values, [RPAREN] + rest))))
    case BetweenExpr(left, start, end, isNot) =>
      Print(left, Negation(isNot, [Lexeme(Between, "BETWEEN")] + Print(start, [Lexeme(And, "AND")] + Print(end, rest))))
    case LikeExpr(left, pattern, isNot) =>
      Print(left, Negation(isNot, [Lexeme(Like, "LIKE")] + Print(pattern, rest)))
  }

  function PrintList(es: seq<Expr>, rest: seq<Lexeme>): (r: seq<Lexeme>)
    ensures |r| >= |rest|
    decreases es
  {
    if es == [] then rest
    else if |es| == 1 then Print(es[0], rest)
    else Print(es[0], [COMMA] + PrintList(es[1..], rest))
  }
}
