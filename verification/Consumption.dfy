/**
 * What every successful parse consumes: a stretch of tokens with balanced parentheses that holds exactly the
 * tokens the tree accounts for, and trees of a restricted form.
 */
module Consumption {
  import opened Wrappers
  import opened Tokens
  import opened Ast
  import opened Grammar

  /** Tokens other than parentheses. */
  ghost function NonParen(ts: seq<Lexeme>): nat {
    if ts == [] then 0
    else (if ts[0].kind.LeftParen? || ts[0].kind.RightParen? then 0 else 1) + NonParen(ts[1..])
  }

  /** The closing parentheses with no partner in the list, each named by the number of tokens from it on. */
  ghost function Pending(ts: seq<Lexeme>): seq<nat> {
    if ts == [] then []
    else
      var p := Pending(ts[1..]);
      if ts[0].kind.LeftParen? then (if p == [] then [] else p[1..])
      else if ts[0].kind.RightParen? then [|ts|] + p
      else p
  }

  ghost predicate IsSuffix(rest: seq<Lexeme>, ts: seq<Lexeme>) {
    rest == ts || (ts != [] && IsSuffix(rest, ts[1..]))
  }

  lemma {:induction false} SuffixTransitive(a: seq<Lexeme>, b: seq<Lexeme>, c: seq<Lexeme>)
    requires IsSuffix(b, a) && IsSuffix(c, b)
    ensures IsSuffix(c, a)
  {
    if a != b {
      SuffixTransitive(a[1..], b, c);
    }
  }

  /** Between ts and its suffix rest lie w tokens other than parentheses, and the parentheses there balance. */
  ghost predicate Spans(ts: seq<Lexeme>, rest: seq<Lexeme>, w: int) {
    IsSuffix(rest, ts) && NonParen(ts) - NonParen(rest) == w && Pending(ts) == Pending(rest)
  }

  lemma SpansTransitive(a: seq<Lexeme>, b: seq<Lexeme>, c: seq<Lexeme>, v: int, w: int)
    requires Spans(a, b, v) && Spans(b, c, w)
    ensures Spans(a, c, v + w)
  {
    SuffixTransitive(a, b, c);
  }

  lemma SpansNothing(ts: seq<Lexeme>)
    ensures Spans(ts, ts, 0)
  {
  }

  lemma SpansToken(ts: seq<Lexeme>)
    requires ts != [] && !ts[0].kind.LeftParen? && !ts[0].kind.RightParen?
    ensures Spans(ts, Advance(ts), 1)
  {
    assert IsSuffix(ts[1..], ts[1..]);
  }

  lemma SpansGroup(ts: seq<Lexeme>, close: seq<Lexeme>, w: int)
    requires ts != [] && Kind(ts).LeftParen? && Kind(close).RightParen? && Spans(Advance(ts), close, w)
    ensures Spans(ts, Advance(close), w)
  {
    assert IsSuffix(Advance(close), close);
    SuffixTransitive(Advance(ts), close, Advance(close));
  }

  // The tokens a tree accounts for.

  ghost function Weight(e: Expr): nat
    decreases e
  {
    match e
    case ColumnRef(database, collection, _) =>
      1 + (if database.Some? then 2 else 0) + (if collection.Some? then 2 else 0)
    case Unary(_, operand) => 1 + Weight(operand)
    case Binary(_, left, right) => Weight(left) + 1 + Weight(right)
    case FunctionCall(_, arguments) => 1 + ListWeight(arguments)
    case Vector(elements) => 2 + ListWeight(elements)
    case InExpr(left, values, isNot) => Weight(left) + (if isNot then 2 else 1) + ListWeight(values)
    case BetweenExpr(left, start, end, isNot) =>
      Weight(left) + (if isNot then 2 else 1) + Weight(start) + 1 + Weight(end)
    case LikeExpr(left, pattern, isNot) => Weight(left) + (if isNot then 2 else 1) + Weight(pattern)
    case _ => 1
  }

  ghost function ListWeight(es: seq<Expr>): nat
    decreases es
  {
    if es == [] then 0 else if |es| == 1 then Weight(es[0]) else Weight(es[0]) + 1 + ListWeight(es[1..])
  }

  /** The trees a parse can return: no BETWEEN, integers of the literal range, no database without collection. */
  ghost predicate Regular(e: Expr)
    decreases e
  {
    match e
    case IntLit(n) => 0 <= n <= MAX_INT64
    case ColumnRef(database, collection, _) => database.Some? ==> collection.Some?
    case Unary(_, operand) => Regular(operand)
    case Binary(_, left, right) => Regular(left) && Regular(right)
    case FunctionCall(_, arguments) => forall a | a in arguments :: Regular(a)
    case Vector(elements) => forall a | a in elements :: Regular(a)
    case InExpr(left, values, _) => Regular(left) && forall a | a in values :: Regular(a)
    case BetweenExpr(_, _, _, _) => false
    case LikeExpr(left, pattern, _) => Regular(left) && Regular(pattern)
    case _ => true
  }

  ghost predicate Accounts(r: Parse<Expr>, ts: seq<Lexeme>, base: int) {
    r.Ok? ==> Regular(r.value) && Spans(ts, r.rest, Weight(r.value) - base)
  }

  ghost predicate LogicEnds(ts: seq<Lexeme>) {
    !Kind(ts).And? && !Kind(ts).Or?
  }

  /** A parsed expression extends as far as it can: neither AND nor OR follows it. */
  lemma {:induction false} ExpressionIsMaximal(ts: seq<Lexeme>)
    requires ParseExpression(ts).Ok?
    ensures LogicEnds(ParseExpression(ts).rest)
  {
    var ands := ParseLevel(AND_LEVEL, ts);
    ChainStops(AND_LEVEL, ParseLevel(COMPARISON, ts).value, ParseLevel(COMPARISON, ts).rest);
    ChainStops(OR_LEVEL, ands.value, ands.rest);
  }

  /** A chain of ANDs stops before no AND, a chain of ORs before neither. */
  lemma {:induction false} ChainStops(level: nat, left: Expr, ts: seq<Lexeme>)
    requires level == AND_LEVEL || (level == OR_LEVEL && !Kind(ts).And?)
    requires ParseChain(level, left, ts).Ok?
    ensures !Kind(ParseChain(level, left, ts).rest).And?
    ensures level == OR_LEVEL ==> !Kind(ParseChain(level, left, ts).rest).Or?
    decreases |ts|, level
  {
    var op := OperatorAt(level, Kind(ts));
    if op.Some? {
      var right := ParseLevel(level - 1, Advance(ts));
      if level == OR_LEVEL {
        var first := ParseLevel(COMPARISON, Advance(ts));
        ChainStops(AND_LEVEL, first.value, first.rest);
      }
      ChainStops(level, Binary(op.value, left, right.value), right.rest);
    }
  }

  /** Operands joined by operators, nested to the left. */
  function FoldLeft(left: Expr, ops: seq<BinaryOp>, operands: seq<Expr>): Expr
    requires |ops| == |operands|
    decreases ops
  {
    if ops == [] then left else FoldLeft(Binary(ops[0], left, operands[0]), ops[1..], operands[1..])
  }

  /** Cuts of a token list: an operator of the level at each, then an operand of the level below up to the next. */
  ghost predicate IsChain(level: nat, ops: seq<BinaryOp>, operands: seq<Expr>, cuts: seq<seq<Lexeme>>)
    requires 0 < level <= OR_LEVEL
  {
    && |ops| == |operands| == |cuts| - 1
    && forall i | 0 <= i < |ops| ::
         && OperatorAt(level, Kind(cuts[i])) == Some(ops[i])
         && ParseLevel(level - 1, Advance(cuts[i])) == Ok(operands[i], cuts[i + 1])
  }

  /** What a level of left-associative operators returns: the left fold of the operands it read, and it read all. */
  lemma {:induction false} LevelFolds(level: nat, ts: seq<Lexeme>)
    returns (first: Expr, ops: seq<BinaryOp>, operands: seq<Expr>, cuts: seq<seq<Lexeme>>)
    requires 0 < level <= OR_LEVEL && level != COMPARISON && ParseLevel(level, ts).Ok?
    ensures IsChain(level, ops, operands, cuts) && ParseLevel(level - 1, ts) == Ok(first, cuts[0])
    ensures ParseLevel(level, ts) == Ok(FoldLeft(first, ops, operands), cuts[|ops|])
    ensures OperatorAt(level, Kind(cuts[|ops|])).None?
  {
    var left := ParseLevel(level - 1, ts);
    first := left.value;
    ops, operands, cuts := ChainFolds(level, left.value, left.rest);
  }

  lemma {:induction false} ChainFolds(level: nat, left: Expr, ts: seq<Lexeme>)
    returns (ops: seq<BinaryOp>, operands: seq<Expr>, cuts: seq<seq<Lexeme>>)
    requires 0 < level <= OR_LEVEL && level != COMPARISON && ParseChain(level, left, ts).Ok?
    ensures IsChain(level, ops, operands, cuts) && cuts[0] == ts
    ensures ParseChain(level, left, ts) == Ok(FoldLeft(left, ops, operands), cuts[|ops|])
    ensures OperatorAt(level, Kind(cuts[|ops|])).None?
    decreases |ts|
  {
    hide ParseLevel, OperatorAt;
    var op := OperatorAt(level, Kind(ts));
    if op.None? {
      ops, operands, cuts := [], [], [ts];
    } else {
      var right := ParseLevel(level - 1, Advance(ts));
      var moreOps, moreOperands, moreCuts := ChainFolds(level, Binary(op.value, left, right.value), right.rest);
      ops, operands, cuts := [op.value] + moreOps, [right.value] + moreOperands, [ts] + moreCuts;
      assert ops[1..] == moreOps && operands[1..] == moreOperands;
    }
  }

  /** No input makes the parser return a BETWEEN node: its lower bound has swallowed the AND. */
  lemma BetweenNeverParses(left: Expr, ts: seq<Lexeme>, isNot: bool)
    requires Kind(ts).Between?
    ensures ParsePredicate(left, ts, isNot).Fail?
  {
    var start := ParseExpression(Advance(ts));
    if start.Ok? {
      ExpressionIsMaximal(Advance(ts));
    }
  }

  lemma {:induction false} ExpressionAccounts(ts: seq<Lexeme>)
    ensures Accounts(ParseExpression(ts), ts, 0)
    decreases |ts|, 10
  {
    LevelAccounts(OR_LEVEL, ts);
  }

  lemma {:induction false} LevelAccounts(level: nat, ts: seq<Lexeme>)
    requires level <= OR_LEVEL
    ensures Accounts(ParseLevel(level, ts), ts, 0)
    decreases |ts|, level + 3
  {
    if level == 0 {
      UnaryAccounts(ts);
    } else {
      var left := ParseLevel(level - 1, ts);
      LevelAccounts(level - 1, ts);
      if left.Ok? {
        if level == COMPARISON {
          ComparisonAccounts(left.value, left.rest);
        } else {
          ChainAccounts(level, left.value, left.rest);
        }
        var whole := ParseLevel(level, ts);
        if whole.Ok? {
          SpansTransitive(ts, left.rest, whole.rest, Weight(left.value), Weight(whole.value) - Weight(left.value));
        }
      }
    }
  }

  lemma OperandSpans(ts: seq<Lexeme>, right: Expr, rest: seq<Lexeme>)
    requires BinaryOperator(Kind(ts)).Some? && Spans(Advance(ts), rest, Weight(right))
    ensures Spans(ts, rest, 1 + Weight(right))
  {
    SpansToken(ts);
    SpansTransitive(ts, Advance(ts), rest, 1, Weight(right));
  }

  lemma {:induction false} ChainAccounts(level: nat, left: Expr, ts: seq<Lexeme>)
    requires 0 < level <= OR_LEVEL && level != COMPARISON && Regular(left)
    ensures Accounts(ParseChain(level, left, ts), ts, Weight(left))
    decreases |ts|, level + 1
  {
    var op := OperatorAt(level, Kind(ts));
    if op.Some? {
      var right := ParseLevel(level - 1, Advance(ts));
      LevelAccounts(level - 1, Advance(ts));
      if right.Ok? {
        OperandSpans(ts, right.value, right.rest);
        var node := Binary(op.value, left, right.value);
        ChainAccounts(level, node, right.rest);
        var whole := ParseChain(level, node, right.rest);
        if whole.Ok? {
          SpansTransitive(ts, right.rest, whole.rest, Weight(right.value) + 1, Weight(whole.value) - Weight(node));
        }
      }
    }
  }

  lemma JoinAccounts(op: BinaryOp, left: Expr, right: Expr)
    requires Regular(left) && Regular(right)
    ensures Regular(Binary(op, left, right)) && Weight(Binary(op, left, right)) == Weight(left) + 1 + Weight(right)
  {
  }

  lemma {:induction false} ComparisonAccounts(left: Expr, ts: seq<Lexeme>)
    requires Regular(left)
    ensures Accounts(ParseComparison(left, ts), ts, Weight(left))
    decreases |ts|, 2
  {
    hide ParsePredicate, ParseLevel, Spans, Weight, Regular;
    var op := OperatorAt(COMPARISON, Kind(ts));
    if op.Some? {
      var right := ParseLevel(ADDITIVE, Advance(ts));
      LevelAccounts(ADDITIVE, Advance(ts));
      if right.Ok? {
        JoinAccounts(op.value, left, right.value);
        OperandSpans(ts, right.value, right.rest);
      }
    } else if StartsPredicate(Kind(ts)) {
      PredicateAccounts(left, ts, false);
    } else if Kind(ts).Not? && StartsPredicate(Kind(Advance(ts))) {
      var whole := ParsePredicate(left, Advance(ts), true);
      PredicateAccounts(left, Advance(ts), true);
      if whole.Ok? {
        SpansToken(ts);
        SpansTransitive(ts, Advance(ts), whole.rest, 1, Weight(whole.value) - Weight(left) - 1);
      }
    } else {
      SpansNothing(ts);
    }
  }

  lemma {:induction false} PredicateAccounts(left: Expr, ts: seq<Lexeme>, isNot: bool)
    requires StartsPredicate(Kind(ts)) && Regular(left)
    ensures Accounts(ParsePredicate(left, ts, isNot), ts, Weight(left) + (if isNot then 1 else 0))
    decreases |ts|, 1
  {
    hide ParsePredicate, Accounts;
    if Kind(ts).In? {
      InAccounts(left, ts, isNot);
    } else if Kind(ts).Between? {
      BetweenNeverParses(left, ts, isNot);
      FailureAccounts(ParsePredicate(left, ts, isNot), ts, Weight(left) + (if isNot then 1 else 0));
    } else {
      LikeAccounts(left, ts, isNot);
    }
  }

  lemma FailureAccounts(r: Parse<Expr>, ts: seq<Lexeme>, base: int)
    requires r.Fail?
    ensures Accounts(r, ts, base)
  {
  }

  lemma NodeAccounts(left: Expr, values: seq<Expr>, pattern: Expr, isNot: bool)
    requires Regular(left)
    ensures (forall a | a in values :: Regular(a)) ==> Regular(InExpr(left, values, isNot))
    ensures Weight(InExpr(left, values, isNot)) == Weight(left) + (if isNot then 2 else 1) + ListWeight(values)
    ensures Regular(pattern) ==> Regular(LikeExpr(left, pattern, isNot))
    ensures Weight(LikeExpr(left, pattern, isNot)) == Weight(left) + (if isNot then 2 else 1) + Weight(pattern)
  {
  }

  lemma {:induction false} InAccounts(left: Expr, ts: seq<Lexeme>, isNot: bool)
    requires Kind(ts).In? && Regular(left)
    ensures Accounts(ParsePredicate(left, ts, isNot), ts, Weight(left) + (if isNot then 1 else 0))
    decreases |ts|, 0
  {
    hide Spans, ParseArguments, ParseExpression, Weight, ListWeight, Regular, NonParen, Pending;
    SpansToken(ts);
    if Kind(Advance(ts)).LeftParen? {
      var values := ParseArguments(Advance(Advance(ts)), RightParen, "Expected ')' after IN values");
      ArgumentsAccount(Advance(ts), "Expected ')' after IN values");
      if values.Ok? {
        SpansTransitive(ts, Advance(ts), values.rest, 1, ListWeight(values.value));
        NodeAccounts(left, values.value, left, isNot);
      }
    }
  }

  lemma {:induction false} LikeAccounts(left: Expr, ts: seq<Lexeme>, isNot: bool)
    requires Kind(ts).Like? && Regular(left)
    ensures Accounts(ParsePredicate(left, ts, isNot), ts, Weight(left) + (if isNot then 1 else 0))
    decreases |ts|, 0
  {
    hide Spans, ParseArguments, ParseExpression, Weight, ListWeight, Regular;
    SpansToken(ts);
    var pattern := ParseExpression(Advance(ts));
    ExpressionAccounts(Advance(ts));
    if pattern.Ok? {
      SpansTransitive(ts, Advance(ts), pattern.rest, 1, Weight(pattern.value));
      NodeAccounts(left, [], pattern.value, isNot);
    }
  }

  lemma {:induction false} UnaryAccounts(ts: seq<Lexeme>)
    ensures Accounts(ParseUnary(ts), ts, 0)
    decreases |ts|, 2
  {
    if UnaryAt(Kind(ts)).Some? {
      var operand := ParseUnary(Advance(ts));
      UnaryAccounts(Advance(ts));
      if operand.Ok? {
        SpansToken(ts);
        SpansTransitive(ts, Advance(ts), operand.rest, 1, Weight(operand.value));
      }
    } else {
      PrimaryAccounts(ts);
    }
  }

  lemma {:induction false} PrimaryAccounts(ts: seq<Lexeme>)
    ensures Accounts(ParsePrimary(ts), ts, 0)
    decreases |ts|, 1
  {
    if Kind(ts).LeftParen? {
      var inside := ParseExpression(Advance(ts));
      ExpressionAccounts(Advance(ts));
      if inside.Ok? && Kind(inside.rest).RightParen? {
        SpansGroup(ts, inside.rest, Weight(inside.value));
      }
    } else if Kind(ts).Identifier? {
      NameAccounts(ts);
    } else if Kind(ts).LeftBracket? {
      BracketAccounts(ts);
    } else if ts != [] && !Kind(ts).RightParen? {
      SpansToken(ts);
    }
  }

  lemma {:induction false} NameAccounts(ts: seq<Lexeme>)
    requires Kind(ts).Identifier?
    ensures Accounts(ParsePrimary(ts), ts, 0)
    decreases |ts|, 0
  {
    hide Spans, ParseArguments, ParseColumn;
    SpansToken(ts);
    var rest := Advance(ts);
    if Kind(rest).LeftParen? {
      var arguments := ParseArguments(Advance(rest), RightParen, "Expected ')' after function arguments");
      ArgumentsAccount(rest, "Expected ')' after function arguments");
      if arguments.Ok? {
        SpansTransitive(ts, rest, arguments.rest, 1, ListWeight(arguments.value));
      }
    } else {
      var column := ParseColumn(Text(ts), rest);
      ColumnAccounts(Text(ts), rest);
      if column.Ok? {
        SpansTransitive(ts, rest, column.rest, 1, Weight(column.value) - 1);
      }
    }
  }

  lemma ColumnAccounts(first: string, ts: seq<Lexeme>)
    ensures Accounts(ParseColumn(first, ts), ts, 1)
  {
    if Kind(ts).Dot? && Kind(Advance(ts)).Identifier? {
      QualifierSpans(ts);
      var rest := Advance(Advance(ts));
      if Kind(rest).Dot? && Kind(Advance(rest)).Identifier? {
        QualifierSpans(rest);
        SpansTransitive(ts, rest, Advance(Advance(rest)), 2, 2);
      }
    }
  }

  lemma QualifierSpans(ts: seq<Lexeme>)
    requires Kind(ts).Dot? && Kind(Advance(ts)).Identifier?
    ensures Spans(ts, Advance(Advance(ts)), 2)
  {
    SpansToken(ts);
    SpansToken(Advance(ts));
    SpansTransitive(ts, Advance(ts), Advance(Advance(ts)), 1, 1);
  }

  ghost predicate ListAccounts(r: Parse<seq<Expr>>, ts: seq<Lexeme>, closing: int) {
    r.Ok? ==> (forall a | a in r.value :: Regular(a)) && Spans(ts, r.rest, ListWeight(r.value) + closing)
  }

  /** An argument list in parentheses, from the opening to past the closing one. */
  lemma {:induction false} ArgumentsAccount(ts: seq<Lexeme>, message: string)
    requires Kind(ts).LeftParen?
    ensures ListAccounts(ParseArguments(Advance(ts), RightParen, message), ts, 0)
    decreases |ts|, 0
  {
    var inside := Advance(ts);
    if Kind(inside).RightParen? {
      SpansGroup(ts, inside, 0);
    } else {
      var list := ParseList(inside);
      ListParseAccounts(inside);
      if list.Ok? && Kind(list.rest).RightParen? {
        SpansGroup(ts, list.rest, ListWeight(list.value));
      }
    }
  }

  lemma {:induction false} BracketAccounts(ts: seq<Lexeme>)
    requires Kind(ts).LeftBracket?
    ensures Accounts(ParsePrimary(ts), ts, 0)
    decreases |ts|, 0
  {
    var inside := Advance(ts);
    SpansToken(ts);
    if Kind(inside).RightBracket? {
      SpansToken(inside);
      SpansTransitive(ts, inside, Advance(inside), 1, 1);
    } else {
      var list := ParseList(inside);
      ListParseAccounts(inside);
      if list.Ok? && Kind(list.rest).RightBracket? {
        SpansToken(list.rest);
        SpansTransitive(ts, inside, list.rest, 1, ListWeight(list.value));
        SpansTransitive(ts, list.rest, Advance(list.rest), 1 + ListWeight(list.value), 1);
      }
    }
  }

  lemma {:induction false} ListParseAccounts(ts: seq<Lexeme>)
    ensures ListAccounts(ParseList(ts), ts, 0)
    decreases |ts|, 11
  {
    var first := ParseExpression(ts);
    ExpressionAccounts(ts);
    if first.Ok? && Kind(first.rest).Comma? {
      ListParseAccounts(Advance(first.rest));
      var more := ParseList(Advance(first.rest));
      if more.Ok? {
        assert ([first.value] + more.value)[1..] == more.value;
        SpansToken(first.rest);
        SpansTransitive(ts, first.rest, Advance(first.rest), Weight(first.value), 1);
        SpansTransitive(ts, Advance(first.rest), more.rest, Weight(first.value) + 1, ListWeight(more.value));
      }
    }
  }
}
