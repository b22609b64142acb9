/**
 * What the formatters write, text by text.  Together with the round trips this fixes what each text means: the
 * parser answers with the very tree that stands next to it here.
 */
module WrittenForms {
  import opened Wrappers
  import opened Tokens
  import opened Ast
  import opened Printing
  import opened Rendering
  import opened StatementPrinting

  function Col(name: string): Expr {
    ColumnRef(None, None, name)
  }

  datatype Written = Written(op: BinaryOp, text: string)

  const ARITHMETIC := [
    Written(OpPlus, " + "), Written(OpMinus, " - "), Written(OpMultiply, " * "), Written(OpDivide, " / "),
    Written(OpModulo, " % ")]

  const COMPARISONS := [
    Written(OpEqual, " = "), Written(OpNotEqual, " != "), Written(OpLessThan, " < "), Written(OpGreaterThan, " > "),
    Written(OpLessEqual, " <= "), Written(OpGreaterEqual, " >= ")]

  const LOGIC := [Written(OpAnd, " AND "), Written(OpOr, " OR ")]

  lemma ArithmeticWritten(w: Written)
    requires w in ARITHMETIC
    ensures " " + (OperatorText(w.op) + " ") == w.text
  {
  }

  lemma ComparisonWritten(w: Written)
    requires w in COMPARISONS
    ensures " " + (OperatorText(w.op) + " ") == w.text
  {
  }

  lemma LogicWritten(w: Written)
    requires w in LOGIC
    ensures " " + (OperatorText(w.op) + " ") == w.text
  {
  }

  lemma BinaryWritten(w: Written, a: string, b: string)
    requires w in ARITHMETIC || w in COMPARISONS || w in LOGIC
    ensures Render(Binary(w.op, Col(a), Col(b)), "") == "(" + a + w.text + b + ")"
  {
    hide OperatorText;
    if w in ARITHMETIC {
      ArithmeticWritten(w);
    } else if w in COMPARISONS {
      ComparisonWritten(w);
    } else {
      LogicWritten(w);
    }
    var right := b + (")" + "");
    assert " " + (OperatorText(w.op) + (" " + right)) == w.text + right;
    assert "(" + (a + (w.text + right)) == "(" + a + w.text + b + ")";
  }

  lemma UnaryWritten(a: string)
    ensures Render(Unary(UnaryNot, Col(a)), "") == "NOT " + a
    ensures Render(Unary(UnaryMinus, Col(a)), "") == "-" + a
    ensures Render(Unary(UnaryPlus, Col(a)), "") == "+" + a
  {
    assert a + "" == a;
  }

  lemma NamesWritten(database: string, collection: string, column: string)
    ensures Render(Col(column), "") == column
    ensures Render(ColumnRef(None, Some(collection), column), "") == collection + "." + column
    ensures Render(ColumnRef(Some(database), Some(collection), column), "")
         == database + "." + collection + "." + column
  {
    assert column + "" == column;
    assert collection + ("." + column) == collection + "." + column;
    assert database + ("." + (collection + ("." + column))) == database + "." + collection + "." + column;
  }

  lemma ConstantsWritten()
    ensures Render(BoolLit(true), "") == "TRUE" && Render(BoolLit(false), "") == "FALSE"
    ensures Render(NullLit, "") == "NULL" && Render(StringLit("it's"), "") == "'it''s'"
  {
    assert Escape("it's") == "it''s" by {
      assert "it's"[1..] == "t's" && "t's"[1..] == "'s" && "'s"[1..] == "s" && "s"[1..] == "";
      assert Escape("") == "" && Escape("s") == "s" && Escape("'s") == "''s" && Escape("t's") == "t''s";
    }
  }

  /** Numerals: the digits of ASCII, the highest power of ten first. */
  lemma NumeralsWritten(m: nat, d: nat)
    requires d < 10
    ensures Decimal(d) == [(48 + d) as char]
    ensures m > 0 ==> Decimal(10 * m + d) == Decimal(m) + [(48 + d) as char]
    ensures Render(IntLit(m), "") == Decimal(m)
    ensures m > 0 ==> Render(IntLit(-(m as int)), "") == "-" + Decimal(m)
  {
    assert (10 * m + d) / 10 == m && (10 * m + d) % 10 == d;
    assert Digit(d) == (48 + d) as char;
    assert Decimal(m) + "" == Decimal(m);
  }

  /** And their values. */
  lemma NumeralsRead(s: string, d: nat)
    requires AllDigits(s) && d < 10
    ensures AllDigits(s + [(48 + d) as char]) && DigitsValue(s + [(48 + d) as char]) == 10 * DigitsValue(s) + d
  {
    var t := s + [(48 + d) as char];
    assert t[..|t| - 1] == s;
  }

  lemma CallsWritten(f: string, a: string, b: string)
    ensures Render(FunctionCall(f, []), "") == f + "()"
    ensures Render(FunctionCall(f, [Col(a), Col(b)]), "") == f + "(" + a + ", " + b + ")"
    ensures Render(Vector([Col(a), Col(b)]), "") == "[" + a + ", " + b + "]"
  {
    ListWritten(a, b, ")");
    ListWritten(a, b, "]");
    assert f + ("(" + RenderList([], ")" + "")) == f + "()";
    assert f + ("(" + (a + ", " + b + ")")) == f + "(" + a + ", " + b + ")";
    assert "[" + (a + ", " + b + "]") == "[" + a + ", " + b + "]";
    assert ")" + "" == ")" && "]" + "" == "]";
  }

  lemma ListWritten(a: string, b: string, rest: string)
    ensures RenderList([Col(a), Col(b)], rest) == a + ", " + b + rest
  {
    assert [Col(a), Col(b)][1..] == [Col(b)];
    assert RenderList([Col(b)], rest) == b + rest;
    assert a + (", " + (b + rest)) == a + ", " + b + rest;
  }

  lemma InWritten(a: string, b: string, c: string)
    ensures Render(InExpr(Col(a), [Col(b), Col(c)], false), "") == a + " IN (" + b + ", " + c + ")"
    ensures Render(InExpr(Col(a), [Col(b), Col(c)], true), "") == a + " NOT IN (" + b + ", " + c + ")"
  {
    ListWritten(b, c, ")");
    var list := b + ", " + c + ")";
    assert ")" + "" == ")";
    assert a + (" " + ("IN " + ("(" + list))) == a + " IN (" + b + ", " + c + ")";
    assert a + (" " + ("NOT " + ("IN " + ("(" + list)))) == a + " NOT IN (" + b + ", " + c + ")";
  }

  lemma LikeWritten(a: string, b: string)
    ensures Render(LikeExpr(Col(a), Col(b), false), "") == a + " LIKE " + b
    ensures Render(LikeExpr(Col(a), Col(b), true), "") == a + " NOT LIKE " + b
  {
    assert b + "" == b;
    assert a + (" " + ("LIKE " + b)) == a + " LIKE " + b;
    assert a + (" " + ("NOT " + ("LIKE " + b))) == a + " NOT LIKE " + b;
  }

  lemma BetweenWritten(a: string, b: string, c: string)
    ensures Render(BetweenExpr(Col(a), Col(b), Col(c), false), "") == a + " BETWEEN " + b + " AND " + c
    ensures Render(BetweenExpr(Col(a), Col(b), Col(c), true), "") == a + " NOT BETWEEN " + b + " AND " + c
  {
    assert c + "" == c;
    var bounds := b + (" AND " + c);
    assert a + (" " + ("BETWEEN " + bounds)) == a + " BETWEEN " + b + " AND " + c;
    assert a + (" " + ("NOT " + ("BETWEEN " + bounds))) == a + " NOT BETWEEN " + b + " AND " + c;
  }

  // Statements, each with all its clauses.

  lemma ItemsWritten(a: string, b: string, x: string, rest: string)
    ensures RenderSeparated(RenderItem, [ExprItem(Col(a), None), ExprItem(Col(b), Some(x))], rest)
         == a + ", " + b + " AS " + x + rest
    ensures RenderSeparated(RenderItem, [StarItem], rest) == "*" + rest
  {
    var items := [ExprItem(Col(a), None), ExprItem(Col(b), Some(x))];
    assert items[1..] == [ExprItem(Col(b), Some(x))];
    assert RenderSeparated(RenderItem, items[1..], rest) == RenderItem(items[1], rest);
    assert RenderItem(items[1], rest) == b + (" AS " + (x + rest));
    assert RenderItem(items[0], ", " + RenderItem(items[1], rest)) == a + (", " + (b + (" AS " + (x + rest))));
    assert a + (", " + (b + (" AS " + (x + rest)))) == a + ", " + b + " AS " + x + rest;
  }

  lemma OrderWritten(o: string, p: string, rest: string)
    ensures RenderOrderBy([OrderByItem(Col(o), ASC), OrderByItem(Col(p), DESC)], rest)
         == " ORDER BY " + o + " ASC, " + p + " DESC" + rest
  {
    var items := [OrderByItem(Col(o), ASC), OrderByItem(Col(p), DESC)];
    assert items[1..] == [OrderByItem(Col(p), DESC)];
    assert RenderSeparated(RenderOrderItem, items[1..], rest) == RenderOrderItem(items[1], rest);
    assert RenderOrderItem(items[1], rest) == p + (" DESC" + rest);
    assert RenderSeparated(RenderOrderItem, items, rest) == o + (" ASC" + (", " + (p + (" DESC" + rest))));
    assert " ORDER BY " + (o + (" ASC" + (", " + (p + (" DESC" + rest)))))
        == " ORDER BY " + o + " ASC, " + p + " DESC" + rest;
  }

  /** The clauses after the collection. */
  lemma ClausesWritten(s: Statement, w: string, g: string, h: string, k: string, o: string, p: string, m: nat, n: nat)
    requires s.SelectStmt? && s.where_ == Some(Col(w)) && s.groupBy == [Col(g), Col(h)] && s.having == Some(Col(k))
    requires s.orderBy == [OrderByItem(Col(o), ASC), OrderByItem(Col(p), DESC)]
    requires s.limit == Some(m) && s.offset == Some(n)
    ensures RenderSelectTail(s, "")
         == " WHERE " + w + " GROUP BY " + g + ", " + h + " HAVING " + k + " ORDER BY " + o + " ASC, " + p + " DESC"
            + " LIMIT " + Decimal(m) + " OFFSET " + Decimal(n)
  {
    hide RenderSeparated, RenderOrderBy, RenderList, Decimal;
    var counts := CountsWritten(m, n);
    OrderWritten(o, p, counts);
    var order := " ORDER BY " + o + " ASC, " + p + " DESC" + counts;
    var having := " HAVING " + (k + order);
    ListWritten(g, h, having);
    var grouped := g + ", " + h + having;
    assert RenderSelectTail(s, "") == " WHERE " + (w + (" GROUP BY " + grouped));
    Joined3(" WHERE ", w, " GROUP BY " + g + ", " + h + having);
    ClausesJoined(w, g, h, k, " ORDER BY " + o + " ASC, " + p + " DESC", counts, Decimal(m), Decimal(n));
  }

  lemma CountsWritten(m: nat, n: nat) returns (counts: string)
    ensures counts == " LIMIT " + (Decimal(m) + (" OFFSET " + Decimal(n)))
    ensures RenderCount(" LIMIT ", Some(m), RenderCount(" OFFSET ", Some(n), "")) == counts
  {
    hide Decimal;
    assert Decimal(n) + "" == Decimal(n);
    counts := " LIMIT " + (Decimal(m) + (" OFFSET " + Decimal(n)));
  }

  lemma Joined3(a: string, b: string, c: string)
    ensures a + (b + c) == a + b + c
  {
  }

  lemma ClausesJoined(
    w: string, g: string, h: string, k: string, order: string, counts: string, m: string, n: string)
    requires counts == " LIMIT " + (m + (" OFFSET " + n))
    ensures " WHERE " + (w + (" GROUP BY " + (g + ", " + h + (" HAVING " + (k + (order + counts))))))
         == " WHERE " + w + " GROUP BY " + g + ", " + h + " HAVING " + k + order + " LIMIT " + m + " OFFSET " + n
  {
  }

  lemma SelectWritten(s: Statement, t: string, a: string, b: string, x: string, clauses: string)
    requires s.SelectStmt? && s.collection == t && s.items == [ExprItem(Col(a), None), ExprItem(Col(b), Some(x))]
    requires RenderSelectTail(s, "") == clauses
    ensures RenderStatement(s, "") == "SELECT " + a + ", " + b + " AS " + x + " FROM " + t + clauses
  {
    hide RenderSeparated, RenderSelectTail;
    ItemsWritten(a, b, x, " FROM " + (t + clauses));
    assert "SELECT " + (a + ", " + b + " AS " + x + (" FROM " + (t + clauses)))
        == "SELECT " + a + ", " + b + " AS " + x + " FROM " + t + clauses;
  }

  lemma ShortSelectWritten(t: string)
    ensures RenderStatement(SelectStmt(t, [StarItem], None, [], None, [], None, None), "") == "SELECT * FROM " + t
  {
    hide RenderSeparated;
    ItemsWritten("", "", "", " FROM " + (t + ""));
    assert "SELECT " + ("*" + (" FROM " + (t + ""))) == "SELECT * FROM " + t;
  }

  lemma ColumnsWritten(a: string, b: string, rest: string)
    ensures RenderColumns([a, b], rest) == " (" + a + ", " + b + ")" + rest
  {
    assert [a, b][1..] == [b];
    assert RenderSeparated(RenderName, [b], ")" + rest) == b + (")" + rest);
    assert " (" + (a + (", " + (b + (")" + rest)))) == " (" + a + ", " + b + ")" + rest;
  }

  lemma InsertWritten(t: string, a: string, b: string, c: string, d: string)
    ensures RenderStatement(InsertStmt(t, [a, b], [Col(c), Col(d)]), "")
         == "INSERT INTO " + t + " (" + a + ", " + b + ") VALUES (" + c + ", " + d + ")"
    ensures RenderStatement(InsertStmt(t, [], [Col(c), Col(d)]), "")
         == "INSERT INTO " + t + " VALUES (" + c + ", " + d + ")"
  {
    hide RenderList, RenderSeparated;
    ListWritten(c, d, ")");
    assert ")" + "" == ")";
    var values := " VALUES (" + (c + ", " + d + ")");
    ColumnsWritten(a, b, values);
    assert "INSERT INTO " + (t + (" (" + a + ", " + b + ")" + values))
        == "INSERT INTO " + t + " (" + a + ", " + b + ") VALUES (" + c + ", " + d + ")";
    assert "INSERT INTO " + (t + values) == "INSERT INTO " + t + " VALUES (" + c + ", " + d + ")";
  }

  lemma UpdateWritten(t: string, a: string, b: string, c: string, d: string, w: string)
    ensures RenderStatement(UpdateStmt(t, [Assignment(a, Col(c)), Assignment(b, Col(d))], Some(Col(w))), "")
         == "UPDATE " + t + " SET " + a + " = " + c + ", " + b + " = " + d + " WHERE " + w
  {
    var as_ := [Assignment(a, Col(c)), Assignment(b, Col(d))];
    var condition := " WHERE " + (w + "");
    assert as_[1..] == [Assignment(b, Col(d))];
    assert RenderSeparated(RenderAssignment, as_[1..], condition) == RenderAssignment(as_[1], condition);
    assert RenderAssignment(as_[1], condition) == b + (" = " + (d + condition));
    assert RenderSeparated(RenderAssignment, as_, condition)
        == a + (" = " + (c + (", " + (b + (" = " + (d + condition))))));
    assert "UPDATE " + (t + (" SET " + (a + (" = " + (c + (", " + (b + (" = " + (d + condition)))))))))
        == "UPDATE " + t + " SET " + a + " = " + c + ", " + b + " = " + d + " WHERE " + w;
  }

  lemma DeleteWritten(t: string, w: string)
    ensures RenderStatement(DeleteStmt(t, Some(Col(w))), "") == "DELETE FROM " + t + " WHERE " + w
    ensures RenderStatement(DeleteStmt(t, None), "") == "DELETE FROM " + t
  {
    assert "DELETE FROM " + (t + (" WHERE " + (w + ""))) == "DELETE FROM " + t + " WHERE " + w;
    assert "DELETE FROM " + (t + "") == "DELETE FROM " + t;
  }
}
