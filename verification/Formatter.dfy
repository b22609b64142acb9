/**
 * The formatters: visitors that append to an output string.  Each method takes, as a ghost, the text that is
 * still to follow, so that its contract speaks of the whole text.
 */
module Formatter {
  import opened Wrappers
  import opened Tokens
  import opened Ast
  import opened Rendering
  import opened StatementPrinting

  /** Doubles every quote. */
  method EscapeSqlString(input: string) returns (result: string)
    ensures result == Escape(input)
  {
    result := "";
    for i := 0 to |input|
      invariant result + Escape(input[i..]) == Escape(input)
    {
      var c := input[i];
      ghost var rest := Escape(input[i + 1..]);
      assert input[i..][1..] == input[i + 1..];
      if c == '\'' {
        Assoc(result, "''", rest);
        Assoc(result, "'", "'");
        result := result + "'";
        result := result + "'";
      } else {
        Assoc(result, [c], rest);
        result := result + [c];
      }
    }
  }

  lemma Spell(a: string, b: string, c: string, d: string, rest: string)
    ensures (a + b + c + d) + rest == a + (b + (c + (d + rest)))
  {
  }

  lemma Spell3(a: string, b: string, c: string, rest: string)
    ensures (a + b + c) + rest == a + (b + (c + rest))
  {
  }

  class ExpressionFormatter {
    var out: string

    constructor ()
      ensures out == ""
    {
      out := "";
    }

    method Format(e: Expr) returns (text: string)
      modifies this
      ensures text == Render(e, "")
    {
      out := "";
      Visit(e, "");
      assert out + "" == out && "" + Render(e, "") == Render(e, "");
      return out;
    }

    method Append(text: string, ghost rest: string)
      modifies this
      ensures out == old(out) + text && out + rest == old(out) + (text + rest)
    {
      out := out + text;
    }

    method Visit(e: Expr, ghost rest: string)
      modifies this
      ensures out + rest == old(out) + Render(e, rest)
      decreases e, 2
    {
      match e
      case ColumnRef(_, _, _) => VisitColumnReference(e, rest);
      case Unary(_, _) => VisitUnary(e, rest);
      case Binary(_, _, _) => VisitBinary(e, rest);
      case FunctionCall(_, _) => VisitFunctionCall(e, rest);
      case Vector(_) => VisitVector(e, rest);
      case InExpr(_, _, _) => VisitIn(e, rest);
      case BetweenExpr(_, _, _, _) => VisitBetween(e, rest);
      case LikeExpr(_, _, _) => VisitLike(e, rest);
      case _ => VisitLiteral(e, rest);
    }

    method VisitLiteral(e: Expr, ghost rest: string)
      requires e.IntLit? || e.FloatLit? || e.StringLit? || e.BoolLit? || e.NullLit?
      modifies this
      ensures out + rest == old(out) + Render(e, rest)
    {
      match e
      case IntLit(n) => Append(IntegerText(n), rest);
      case FloatLit(text) => Append(text, rest);
      case StringLit(s) =>
        var escaped := EscapeSqlString(s);
        Append("'", escaped + ("'" + rest));
        Append(escaped, "'" + rest);
        Append("'", rest);
      case BoolLit(b) => Append(if b then "TRUE" else "FALSE", rest);
      case NullLit => Append("NULL", rest);
    }

    method VisitColumnReference(e: Expr, ghost rest: string)
      requires e.ColumnRef?
      modifies this
      ensures out + rest == old(out) + Render(e, rest)
    {
      ghost var last := e.column + rest;
      ghost var tail := Qualify(e.collection, last);
      if e.database.Some? {
        Append(e.database.value, "." + tail);
        Append(".", tail);
      }
      if e.collection.Some? {
        Append(e.collection.value, "." + last);
        Append(".", last);
      }
      Append(e.column, rest);
    }

    method VisitUnary(e: Expr, ghost rest: string)
      requires e.Unary?
      modifies this
      ensures out + rest == old(out) + Render(e, rest)
      decreases e, 1
    {
      match e.uop {
        case UnaryNot => Append("NOT ", Render(e.operand, rest));
        case UnaryMinus => Append("-", Render(e.operand, rest));
        case UnaryPlus => Append("+", Render(e.operand, rest));
      }
      Visit(e.operand, rest);
    }

    method VisitBinary(e: Expr, ghost rest: string)
      requires e.Binary?
      modifies this
      ensures out + rest == old(out) + Render(e, rest)
      decreases e, 1
    {
      hide OperatorText;
      ghost var right := Render(e.right, ")" + rest);
      ghost var tail := OperatorText(e.bop) + (" " + right);
      Append("(", Render(e.left, " " + tail));
      Visit(e.left, " " + tail);
      Append(" ", tail);
      Append(OperatorText(e.bop), " " + right);
      Append(" ", right);
      Visit(e.right, ")" + rest);
      Append(")", rest);
    }

    /** Elements separated by commas. */
    method VisitList(es: seq<Expr>, ghost rest: string)
      modifies this
      ensures out + rest == old(out) + RenderList(es, rest)
      decreases es
    {
      for i := 0 to |es|
        invariant out + RenderList(es[i..], rest) == old(out) + RenderList(es, rest)
      {
        ghost var more := RenderList(es[i + 1..], rest);
        assert es[i..][1..] == es[i + 1..];
        Visit(es[i], if i < |es| - 1 then ", " + more else rest);
        if i < |es| - 1 {
          Append(", ", more);
        }
      }
    }

    method VisitFunctionCall(e: Expr, ghost rest: string)
      requires e.FunctionCall?
      modifies this
      ensures out + rest == old(out) + Render(e, rest)
      decreases e, 1
    {
      ghost var list := RenderList(e.arguments, ")" + rest);
      Append(e.name, "(" + list);
      Append("(", list);
      VisitList(e.arguments, ")" + rest);
      Append(")", rest);
    }

    method VisitVector(e: Expr, ghost rest: string)
      requires e.Vector?
      modifies this
      ensures out + rest == old(out) + Render(e, rest)
      decreases e, 1
    {
      Append("[", RenderList(e.elements, "]" + rest));
      VisitList(e.elements, "]" + rest);
      Append("]", rest);
    }

    method VisitIn(e: Expr, ghost rest: string)
      requires e.InExpr?
      modifies this
      ensures out + rest == old(out) + Render(e, rest)
      decreases e, 1
    {
      ghost var list := RenderList(e.values, ")" + rest);
      Visit(e.left, " " + Negate(e.isNot, "IN " + ("(" + list)));
      if e.isNot {
        assert " " + "NOT " + "IN " + "(" == " NOT IN (";
        Spell(" ", "NOT ", "IN ", "(", list);
        Append(" NOT IN (", list);
      } else {
        assert " " + "IN " + "(" == " IN (";
        Spell3(" ", "IN ", "(", list);
        Append(" IN (", list);
      }
      VisitList(e.values, ")" + rest);
      Append(")", rest);
    }

    method VisitBetween(e: Expr, ghost rest: string)
      requires e.BetweenExpr?
      modifies this
      ensures out + rest == old(out) + Render(e, rest)
      decreases e, 1
    {
      ghost var end := Render(e.end, rest);
      ghost var start := Render(e.start, " AND " + end);
      Visit(e.left, " " + Negate(e.isNot, "BETWEEN " + start));
      if e.isNot {
        assert " " + "NOT " + "BETWEEN " == " NOT BETWEEN ";
        Spell3(" ", "NOT ", "BETWEEN ", start);
        Append(" NOT BETWEEN ", start);
      } else {
        assert " " + "BETWEEN " == " BETWEEN ";
        Assoc(" ", "BETWEEN ", start);
        Append(" BETWEEN ", start);
      }
      Visit(e.start, " AND " + end);
      Append(" AND ", end);
      Visit(e.end, rest);
    }

    method VisitLike(e: Expr, ghost rest: string)
      requires e.LikeExpr?
      modifies this
      ensures out + rest == old(out) + Render(e, rest)
      decreases e, 1
    {
      ghost var pattern := Render(e.pattern, rest);
      Visit(e.left, " " + Negate(e.isNot, "LIKE " + pattern));
      if e.isNot {
        assert " " + "NOT " + "LIKE " == " NOT LIKE ";
        Spell3(" ", "NOT ", "LIKE ", pattern);
        Append(" NOT LIKE ", pattern);
      } else {
        assert " " + "LIKE " == " LIKE ";
        Assoc(" ", "LIKE ", pattern);
        Append(" LIKE ", pattern);
      }
      Visit(e.pattern, rest);
    }
  }

  class StatementFormatter {
    const expressions: ExpressionFormatter
    var out: string

    constructor ()
      ensures out == "" && fresh(expressions)
    {
      expressions := new ExpressionFormatter();
      out := "";
    }

    method Format(s: Statement) returns (text: string)
      modifies this, expressions
      ensures text == RenderStatement(s, "")
    {
      out := "";
      match s {
        case SelectStmt(_, _, _, _, _, _, _, _) => VisitSelect(s, "");
        case InsertStmt(_, _, _) => VisitInsert(s, "");
        case UpdateStmt(_, _, _) => VisitUpdate(s, "");
        case DeleteStmt(_, _) => VisitDelete(s, "");
      }
      assert out + "" == out && "" + RenderStatement(s, "") == RenderStatement(s, "");
      return out;
    }

    method Append(text: string, ghost rest: string)
      modifies this
      ensures out == old(out) + text && out + rest == old(out) + (text + rest)
    {
      out := out + text;
    }

    method AppendExpression(e: Expr, ghost rest: string)
      modifies this, expressions
      ensures out + rest == old(out) + Render(e, rest)
    {
      var text := expressions.Format(e);
      RenderAppends(e, "", rest);
      assert "" + rest == rest;
      Append(text, rest);
    }

    method AppendClause(keyword: string, e: Option<Expr>, ghost rest: string)
      modifies this, expressions
      ensures out + rest == old(out) + RenderClause(keyword, e, rest)
    {
      if e.Some? {
        Append(keyword, Render(e.value, rest));
        AppendExpression(e.value, rest);
      }
    }

    method AppendExpressions(es: seq<Expr>, ghost rest: string)
      modifies this, expressions
      ensures out + rest == old(out) + RenderList(es, rest)
    {
      for i := 0 to |es|
        invariant out + RenderList(es[i..], rest) == old(out) + RenderList(es, rest)
      {
        ghost var more := RenderList(es[i + 1..], rest);
        assert es[i..][1..] == es[i + 1..];
        AppendExpression(es[i], if i < |es| - 1 then ", " + more else rest);
        if i < |es| - 1 {
          Append(", ", more);
        }
      }
    }

    method VisitDelete(s: Statement, ghost rest: string)
      requires s.DeleteStmt?
      modifies this, expressions
      ensures out + rest == old(out) + RenderStatement(s, rest)
    {
      ghost var condition := RenderClause(" WHERE ", s.where_, rest);
      Append("DELETE FROM ", s.collection + condition);
      Append(s.collection, condition);
      AppendClause(" WHERE ", s.where_, rest);
    }

    method VisitInsert(s: Statement, ghost rest: string)
      requires s.InsertStmt?
      modifies this, expressions
      ensures out + rest == old(out) + RenderStatement(s, rest)
    {
      ghost var list := RenderList(s.values, ")" + rest);
      ghost var columns := RenderColumns(s.columns, " VALUES (" + list);
      Append("INSERT INTO ", s.collection + columns);
      Append(s.collection, columns);
      if s.columns != [] {
        AppendColumns(s.columns, " VALUES (" + list);
      }
      Append(" VALUES (", list);
      AppendExpressions(s.values, ")" + rest);
      Append(")", rest);
    }

    method AppendColumns(columns: seq<string>, ghost rest: string)
      requires columns != []
      modifies this
      ensures out + rest == old(out) + RenderColumns(columns, rest)
    {
      ghost var close := ")" + rest;
      Append(" (", RenderSeparated(RenderName, columns, close));
      for i := 0 to |columns|
        invariant out + RenderSeparated(RenderName, columns[i..], close) == old(out) + RenderColumns(columns, rest)
      {
        ghost var more := RenderSeparated(RenderName, columns[i + 1..], close);
        assert columns[i..][1..] == columns[i + 1..];
        Append(columns[i], if i < |columns| - 1 then ", " + more else close);
        if i < |columns| - 1 {
          Append(", ", more);
        }
      }
      Append(")", rest);
    }

    method AppendItems(items: seq<SelectItem>, ghost rest: string)
      modifies this, expressions
      ensures out + rest == old(out) + RenderSeparated(RenderItem, items, rest)
    {
      for i := 0 to |items|
        invariant out + RenderSeparated(RenderItem, items[i..], rest)
               == old(out) + RenderSeparated(RenderItem, items, rest)
      {
        ghost var more := RenderSeparated(RenderItem, items[i + 1..], rest);
        assert items[i..][1..] == items[i + 1..];
        ghost var tail := if i < |items| - 1 then ", " + more else rest;
        match items[i] {
          case StarItem => Append("*", tail);
          case ExprItem(e, None) => AppendExpression(e, tail);
          case ExprItem(e, Some(alias)) =>
            AppendExpression(e, " AS " + (alias + tail));
            Append(" AS ", alias + tail);
            Append(alias, tail);
        }
        if i < |items| - 1 {
          Append(", ", more);
        }
      }
    }

    method AppendOrderBy(items: seq<OrderByItem>, ghost rest: string)
      requires items != []
      modifies this, expressions
      ensures out + rest == old(out) + RenderOrderBy(items, rest)
    {
      Append(" ORDER BY ", RenderSeparated(RenderOrderItem, items, rest));
      for i := 0 to |items|
        invariant out + RenderSeparated(RenderOrderItem, items[i..], rest) == old(out) + RenderOrderBy(items, rest)
      {
        ghost var more := RenderSeparated(RenderOrderItem, items[i + 1..], rest);
        assert items[i..][1..] == items[i + 1..];
        ghost var tail := if i < |items| - 1 then ", " + more else rest;
        AppendExpression(items[i].expression, DirectionText(items[i].direction) + tail);
        if items[i].direction == ASC {
          Append(" ASC", tail);
        } else {
          Append(" DESC", tail);
        }
        if i < |items| - 1 {
          Append(", ", more);
        }
      }
    }

    method AppendCount(keyword: string, n: Option<nat>, ghost rest: string)
      modifies this
      ensures out + rest == old(out) + RenderCount(keyword, n, rest)
    {
      if n.Some? {
        Append(keyword, Decimal(n.value) + rest);
        Append(Decimal(n.value), rest);
      }
    }

    method VisitSelect(s: Statement, ghost rest: string)
      requires s.SelectStmt?
      modifies this, expressions
      ensures out + rest == old(out) + RenderStatement(s, rest)
    {
      hide RenderSeparated, RenderClause, RenderCount;
      ghost var offset := RenderCount(" OFFSET ", s.offset, rest);
      ghost var limit := RenderCount(" LIMIT ", s.limit, offset);
      ghost var orderBy := RenderOrderBy(s.orderBy, limit);
      ghost var having := RenderClause(" HAVING ", s.having, orderBy);
      ghost var groupBy := RenderGroupBy(s.groupBy, having);
      ghost var tail := RenderSelectTail(s, rest);
      ghost var from := " FROM " + (s.collection + tail);
      Append("SELECT ", RenderSeparated(RenderItem, s.items, from));
      AppendItems(s.items, from);
      Append(" FROM ", s.collection + tail);
      Append(s.collection, tail);
      AppendClause(" WHERE ", s.where_, groupBy);
      if |s.groupBy| > 0 {
        Append(" GROUP BY ", RenderList(s.groupBy, having));
        AppendExpressions(s.groupBy, having);
      }
      AppendClause(" HAVING ", s.having, orderBy);
      if |s.orderBy| > 0 {
        AppendOrderBy(s.orderBy, limit);
      }
      AppendCount(" LIMIT ", s.limit, offset);
      AppendCount(" OFFSET ", s.offset, rest);
    }

    method AppendAssignments(assignments: seq<Assignment>, ghost rest: string)
      modifies this, expressions
      ensures out + rest == old(out) + RenderSeparated(RenderAssignment, assignments, rest)
    {
      for i := 0 to |assignments|
        invariant out + RenderSeparated(RenderAssignment, assignments[i..], rest)
               == old(out) + RenderSeparated(RenderAssignment, assignments, rest)
      {
        ghost var more := RenderSeparated(RenderAssignment, assignments[i + 1..], rest);
        assert assignments[i..][1..] == assignments[i + 1..];
        ghost var tail := if i < |assignments| - 1 then ", " + more else rest;
        ghost var value := Render(assignments[i].value, tail);
        Append(assignments[i].column, " = " + value);
        Append(" = ", value);
        AppendExpression(assignments[i].value, tail);
        if i < |assignments| - 1 {
          Append(", ", more);
        }
      }
    }

    method VisitUpdate(s: Statement, ghost rest: string)
      requires s.UpdateStmt?
      modifies this, expressions
      ensures out + rest == old(out) + RenderStatement(s, rest)
    {
      ghost var condition := RenderClause(" WHERE ", s.where_, rest);
      ghost var list := RenderSeparated(RenderAssignment, s.assignments, condition);
      Append("UPDATE ", s.collection + (" SET " + list));
      Append(s.collection, " SET " + list);
      Append(" SET ", list);
      AppendAssignments(s.assignments, condition);
      AppendClause(" WHERE ", s.where_, rest);
    }
  }
}
