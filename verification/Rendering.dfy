/**
 * What the formatters write, character by character.  As in Printing, every function takes what follows.
 */
module Rendering {
  import opened Wrappers
  import opened Tokens
  import opened Ast
  import opened Printing

  /** Quotes inside a string are doubled. */
  function Escape(s: string): string {
    if s == "" then "" else (if s[0] == '\'' then "''" else [s[0]]) + Escape(s[1..])
  }

  function OperatorText(op: BinaryOp): string {
    OperatorLexeme(op).value
  }

  function UnaryText(op: UnaryOp): string {
    match op
    case UnaryNot => "NOT "
    case UnaryMinus => "-"
    case UnaryPlus => "+"
  }

  function IntegerText(n: int): string {
    if n >= 0 then Decimal(n) else "-" + Decimal(-n)
  }

  function Qualify(name: Option<string>, rest: string): string {
    if name.Some? then name.value + ("." + rest) else rest
  }

  function Negate(isNot: bool, rest: string): string {
    if isNot then "NOT " + rest else rest
  }

  function Render(e: Expr, rest: string): string
    decreases e
  {
    match e
    case IntLit(n) => IntegerText(n) + rest
    case FloatLit(text) => text + rest
    case StringLit(s) => "'" + (Escape(s) + ("'" + rest))
    case BoolLit(b) => (if b then "TRUE" else "FALSE") + rest
    case NullLit => "NULL" + rest
    case ColumnRef(database, collection, column) => Qualify(database, Qualify(collection, column + rest))
    case Unary(op, operand) => UnaryText(op) + Render(operand, rest)
    case Binary(op, left, right) =>
      "(" + Render(left, " " + (OperatorText(op) + (" " + Render(right, ")" + rest))))
    case FunctionCall(name, arguments) => name + ("(" + RenderList(arguments, ")" + rest))
    case Vector(elements) => "[" + RenderList(elements, "]" + rest)
    case InExpr(left, values, isNot) =>
      Render(left, " " + Negate(isNot, "IN " + ("(" + RenderList(values, ")" + rest))))
    case BetweenExpr(left, start, end, isNot) =>
      Render(left, " " + Negate(isNot, "BETWEEN " + Render(start, " AND " + Render(end, rest))))
    case LikeExpr(left, pattern, isNot) =>
      Render(left, " " + Negate(isNot, "LIKE " + Render(pattern, rest)))
  }

  function RenderList(es: seq<Expr>, rest: string): string
    decreases es
  {
    if es == [] then rest
    else if |es| == 1 then Render(es[0], rest)
    else Render(es[0], ", " + RenderList(es[1..], rest))
  }

  lemma Assoc(a: string, b: string, c: string)
    ensures a + (b + c) == (a + b) + c
  {
  }

  /** Rendering is appending: what follows stays what it was. */
  lemma {:induction false} RenderAppends(e: Expr, rest: string, more: string)
    ensures Render(e, rest + more) == Render(e, rest) + more
    decreases e, 0
  {
    match e
    case ColumnRef(database, collection, column) => QualifyAppends(e, rest, more);
    case Unary(op, operand) => RenderAppends(operand, rest, more);
    case Binary(op, left, right) =>
      Assoc(")", rest, more);
      RenderAppends(right, ")" + rest, more);
      SeparatorAppends(" ", OperatorText(op), " ", Render(right, ")" + rest), more);
      RenderAppends(left, " " + (OperatorText(op) + (" " + Render(right, ")" + rest))), more);
    case FunctionCall(name, arguments) =>
      Assoc(")", rest, more);
      RenderListAppends(arguments, ")" + rest, more);
    case Vector(elements) =>
      Assoc("]", rest, more);
      RenderListAppends(elements, "]" + rest, more);
    case InExpr(left, values, isNot) =>
      Assoc(")", rest, more);
      RenderListAppends(values, ")" + rest, more);
      Assoc("(", RenderList(values, ")" + rest), more);
      PredicateAppends(left, isNot, "IN ", "(" + RenderList(values, ")" + rest), more);
    case BetweenExpr(left, start, end, isNot) =>
      RenderAppends(end, rest, more);
      Assoc(" AND ", Render(end, rest), more);
      RenderAppends(start, " AND " + Render(end, rest), more);
      PredicateAppends(left, isNot, "BETWEEN ", Render(start, " AND " + Render(end, rest)), more);
    case LikeExpr(left, pattern, isNot) =>
      RenderAppends(pattern, rest, more);
      PredicateAppends(left, isNot, "LIKE ", Render(pattern, rest), more);
    case _ =>
  }

  lemma SeparatorAppends(a: string, b: string, c: string, rest: string, more: string)
    ensures a + (b + (c + (rest + more))) == (a + (b + (c + rest))) + more
  {
  }

  lemma QualifyAppends(e: Expr, rest: string, more: string)
    requires e.ColumnRef?
    ensures Render(e, rest + more) == Render(e, rest) + more
  {
    var last := e.column + rest;
    Assoc(e.column, rest, more);
    assert Qualify(e.collection, last + more) == Qualify(e.collection, last) + more;
    assert Qualify(e.database, Qualify(e.collection, last) + more)
        == Qualify(e.database, Qualify(e.collection, last)) + more;
  }

  lemma {:induction false} PredicateAppends(left: Expr, isNot: bool, keyword: string, rest: string, more: string)
    ensures Render(left, " " + Negate(isNot, keyword + (rest + more)))
         == Render(left, " " + Negate(isNot, keyword + rest)) + more
    decreases left, 1
  {
    Assoc(keyword, rest, more);
    SeparatorAppends(" ", if isNot then "NOT " else "", keyword, rest, more);
    assert "" + (keyword + rest) == keyword + rest && "" + (keyword + (rest + more)) == keyword + (rest + more);
    RenderAppends(left, " " + Negate(isNot, keyword + rest), more);
  }

  lemma {:induction false} RenderListAppends(es: seq<Expr>, rest: string, more: string)
    ensures RenderList(es, rest + more) == RenderList(es, rest) + more
    decreases es
  {
    if |es| == 1 {
      RenderAppends(es[0], rest, more);
    } else if |es| > 1 {
      RenderListAppends(es[1..], rest, more);
      Assoc(", ", RenderList(es[1..], rest), more);
      RenderAppends(es[0], ", " + RenderList(es[1..], rest), more);
    }
  }
}
