/**
 * The converse of RoundTrip: an expression that is read back unchanged fits its place.  Together they say
 * exactly which expressions survive printing and parsing.
 */
module Exactness {
  import opened Wrappers
  import opened Tokens
  import opened Ast
  import opened Grammar
  import opened Printing
  import opened RoundTrip
  import opened Consumption

  // Aligning two ways of cutting one token list.

  lemma {:induction false} PendingBound(ts: seq<Lexeme>)
    ensures forall i | 0 <= i < |Pending(ts)| :: Pending(ts)[i] <= |ts|
  {
    if ts != [] {
      PendingBound(ts[1..]);
    }
  }

  lemma {:induction false} SuffixCounts(rest: seq<Lexeme>, ts: seq<Lexeme>)
    requires IsSuffix(rest, ts)
    ensures |rest| <= |ts| && NonParen(rest) <= NonParen(ts)
    ensures |rest| == |ts| ==> rest == ts
  {
    if rest != ts {
      SuffixCounts(rest, ts[1..]);
    }
  }

  lemma {:induction false} SuffixesNest(a: seq<Lexeme>, b: seq<Lexeme>, ts: seq<Lexeme>)
    requires IsSuffix(a, ts) && IsSuffix(b, ts) && |b| <= |a|
    ensures IsSuffix(b, a)
  {
    if a != ts {
      if b == ts {
        SuffixCounts(a, ts[1..]);
      } else {
        SuffixesNest(a, b, ts[1..]);
      }
    }
  }

  /** Two cuts after equally many tokens, with balanced parentheses before and no opening one after, coincide. */
  lemma Align(ts: seq<Lexeme>, a: seq<Lexeme>, b: seq<Lexeme>, w: int)
    requires Spans(ts, a, w) && Spans(ts, b, w)
    requires !Kind(a).LeftParen? && !Kind(b).LeftParen?
    ensures a == b
  {
    SuffixCounts(a, ts);
    SuffixCounts(b, ts);
    if |a| >= |b| {
      AlignNested(ts, a, b, w);
    } else {
      AlignNested(ts, b, a, w);
    }
  }

  lemma AlignNested(ts: seq<Lexeme>, a: seq<Lexeme>, b: seq<Lexeme>, w: int)
    requires Spans(ts, a, w) && Spans(ts, b, w) && |b| <= |a|
    requires !Kind(a).LeftParen?
    ensures a == b
  {
    SuffixesNest(a, b, ts);
    if a != b {
      PendingDiffers(a, b);
    }
  }

  lemma PendingDiffers(a: seq<Lexeme>, b: seq<Lexeme>)
    requires IsSuffix(b, a) && a != b && NonParen(a) == NonParen(b) && !Kind(a).LeftParen?
    ensures Pending(a) != Pending(b)
  {
    SuffixCounts(b, a[1..]);
    assert Kind(a).RightParen?;
    PendingBound(b);
    assert Pending(a)[0] == |a|;
  }

  /** A printed regular expression spans exactly its weight. */
  lemma {:induction false} PrintSpans(e: Expr, rest: seq<Lexeme>)
    requires Regular(e)
    ensures Spans(Print(e, rest), rest, Weight(e))
    decreases e, 0
  {
    match e
    case ColumnRef(database, collection, column) => ColumnSpans(database, collection, column, rest);
    case Unary(op, operand) =>
      PrintSpans(operand, rest);
      Prepend(UnaryLexeme(op), Print(operand, rest), rest, Weight(operand));
    case Binary(op, left, right) =>
      var close := [RPAREN] + rest;
      var tail := [OperatorLexeme(op)] + Print(right, close);
      PrintSpans(right, close);
      Prepend(OperatorLexeme(op), Print(right, close), close, Weight(right));
      PrintSpans(left, tail);
      SpansTransitive(Print(left, tail), tail, close, Weight(left), 1 + Weight(right));
      Enclose(Print(left, tail), rest, Weight(e));
    case FunctionCall(name, arguments) =>
      var list := PrintList(arguments, [RPAREN] + rest);
      ListSpans(arguments, [RPAREN] + rest);
      Enclose(list, rest, ListWeight(arguments));
      Prepend(Name(name), [LPAREN] + list, rest, ListWeight(arguments));
      Next2(Name(name), LPAREN, list);
    case Vector(elements) =>
      var close := [RBRACKET] + rest;
      ListSpans(elements, close);
      SpansToken(close);
      SpansTransitive(PrintList(elements, close), close, rest, ListWeight(elements), 1);
      Prepend(LBRACKET, PrintList(elements, close), rest, ListWeight(elements) + 1);
    case InExpr(left, values, isNot) =>
      var list := PrintList(values, [RPAREN] + rest);
      ListSpans(values, [RPAREN] + rest);
      Enclose(list, rest, ListWeight(values));
      Prepend(IN, [LPAREN] + list, rest, ListWeight(values));
      Next2(IN, LPAREN, list);
      PredicateSpans(left, isNot, [IN] + ([LPAREN] + list), rest, 1 + ListWeight(values));
    case LikeExpr(left, pattern, isNot) =>
      PrintSpans(pattern, rest);
      Prepend(Lexeme(Like, "LIKE"), Print(pattern, rest), rest, Weight(pattern));
      PredicateSpans(left, isNot, [Lexeme(Like, "LIKE")] + Print(pattern, rest), rest, 1 + Weight(pattern));
    case _ =>
      SpansToken(Print(e, rest));
  }

  lemma Prepend(t: Lexeme, ts: seq<Lexeme>, rest: seq<Lexeme>, w: int)
    requires Spans(ts, rest, w) && !t.kind.LeftParen? && !t.kind.RightParen?
    ensures Spans([t] + ts, rest, 1 + w)
  {
    Next(t, ts);
    SpansToken([t] + ts);
    SpansTransitive([t] + ts, ts, rest, 1, w);
  }

  lemma Enclose(inside: seq<Lexeme>, rest: seq<Lexeme>, w: int)
    requires Spans(inside, [RPAREN] + rest, w)
    ensures Spans([LPAREN] + inside, rest, w)
  {
    Next(LPAREN, inside);
    Next(RPAREN, rest);
    SpansGroup([LPAREN] + inside, [RPAREN] + rest, w);
  }

  lemma ColumnSpans(database: Option<string>, collection: Option<string>, column: string, rest: seq<Lexeme>)
    ensures Spans(Prefix(database, Prefix(collection, [Name(column)] + rest)), rest,
                  Weight(ColumnRef(database, collection, column)))
  {
    var last := [Name(column)] + rest;
    SpansToken(last);
    PrefixSpans(collection, last, rest, 1);
    PrefixSpans(database, Prefix(collection, last), rest, if collection.Some? then 3 else 1);
  }

  lemma PrefixSpans(name: Option<string>, ts: seq<Lexeme>, rest: seq<Lexeme>, w: int)
    requires Spans(ts, rest, w)
    ensures Spans(Prefix(name, ts), rest, w + if name.Some? then 2 else 0)
  {
    if name.Some? {
      Prepend(DOT, ts, rest, w);
      Prepend(Name(name.value), [DOT] + ts, rest, w + 1);
      Next2(Name(name.value), DOT, ts);
    }
  }

  lemma {:induction false} PredicateSpans(left: Expr, isNot: bool, ts: seq<Lexeme>, rest: seq<Lexeme>, w: int)
    requires Regular(left) && Spans(ts, rest, w)
    ensures Spans(Print(left, Negation(isNot, ts)), rest, Weight(left) + w + if isNot then 1 else 0)
    decreases left, 1
  {
    if isNot {
      Prepend(NOT, ts, rest, w);
    }
    var tail := Negation(isNot, ts);
    PrintSpans(left, tail);
    SpansTransitive(Print(left, tail), tail, rest, Weight(left), w + if isNot then 1 else 0);
  }

  lemma {:induction false} ListSpans(es: seq<Expr>, rest: seq<Lexeme>)
    requires forall a | a in es :: Regular(a)
    ensures Spans(PrintList(es, rest), rest, ListWeight(es))
    decreases es
  {
    if |es| == 1 {
      PrintSpans(es[0], rest);
    } else if |es| > 1 {
      var more := PrintList(es[1..], rest);
      ListSpans(es[1..], rest);
      Prepend(COMMA, more, rest, ListWeight(es[1..]));
      PrintSpans(es[0], [COMMA] + more);
      SpansTransitive(PrintList(es, rest), [COMMA] + more, rest, Weight(es[0]), 1 + ListWeight(es[1..]));
    }
  }

  // Reading a parse backwards.

  predicate IsNode(e: Expr) {
    e.Binary? || e.InExpr? || e.BetweenExpr? || e.LikeExpr?
  }

  /** If the higher levels consume nothing more, they change nothing. */
  lemma {:induction false} NoMore(low: nat, high: nat, ts: seq<Lexeme>)
    requires low <= high <= OR_LEVEL && ParseLevel(high, ts).Ok?
    ensures ParseLevel(low, ts).Ok? && |ParseLevel(low, ts).rest| >= |ParseLevel(high, ts).rest|
    ensures |ParseLevel(low, ts).rest| == |ParseLevel(high, ts).rest| ==> ParseLevel(low, ts) == ParseLevel(high, ts)
    decreases high
  {
    if low < high {
      NoMore(low, high - 1, ts);
      var left := ParseLevel(high - 1, ts);
      if high == COMPARISON {
        ComparisonGrows(left.value, left.rest);
      } else {
        ChainGrows(high, left.value, left.rest);
      }
    }
  }

  /** A chain that consumes anything returns a binary node of its level. */
  lemma {:induction false} ChainGrows(level: nat, left: Expr, ts: seq<Lexeme>)
    requires 0 < level <= OR_LEVEL && level != COMPARISON && ParseChain(level, left, ts).Ok?
    ensures var r := ParseChain(level, left, ts);
            r == Ok(left, ts) || (|r.rest| < |ts| && r.value.Binary? && LevelOf(r.value.bop) == level)
    decreases |ts|
  {
    var op := OperatorAt(level, Kind(ts));
    if op.Some? {
      var right := ParseLevel(level - 1, Advance(ts));
      ChainGrows(level, Binary(op.value, left, right.value), right.rest);
    }
  }

  lemma ComparisonGrows(left: Expr, ts: seq<Lexeme>)
    requires ParseComparison(left, ts).Ok?
    ensures var r := ParseComparison(left, ts); r == Ok(left, ts) || (|r.rest| < |ts| && IsNode(r.value))
  {
    if OperatorAt(COMPARISON, Kind(ts)).Some? {
    } else if StartsPredicate(Kind(ts)) {
      PredicateNode(left, ts, false);
    } else if Kind(ts).Not? {
      PredicateNode(left, Advance(ts), true);
    }
  }

  lemma PredicateNode(left: Expr, ts: seq<Lexeme>, isNot: bool)
    requires StartsPredicate(Kind(ts)) && ParsePredicate(left, ts, isNot).Ok?
    ensures var e := ParsePredicate(left, ts, isNot).value;
            IsNode(e) && !e.Binary? && e.left == left && e.isNot == isNot
  {
  }

  /** A result that no loop and no predicate builds comes from the unary level. */
  lemma {:induction false} Bare(level: nat, ts: seq<Lexeme>)
    requires level <= OR_LEVEL && ParseLevel(level, ts).Ok? && !IsNode(ParseLevel(level, ts).value)
    ensures ParseLevel(0, ts) == ParseLevel(level, ts)
    decreases level
  {
    if level > 0 {
      var left := ParseLevel(level - 1, ts);
      if level == COMPARISON {
        ComparisonGrows(left.value, left.rest);
      } else {
        ChainGrows(level, left.value, left.rest);
      }
      Bare(level - 1, ts);
    }
  }

  /** A printed expression that opens with a parenthesis closes it before what follows. */
  lemma {:induction false} OpeningGroup(e: Expr, rest: seq<Lexeme>)
    requires Regular(e) && Kind(Print(e, rest)).LeftParen?
    ensures var p := Pending(Advance(Print(e, rest))); p != [] && p[0] > |rest|
    decreases e
  {
    match e
    case Binary(op, left, right) =>
      var close := [RPAREN] + rest;
      var tail := [OperatorLexeme(op)] + Print(right, close);
      PrintSpans(right, close);
      Prepend(OperatorLexeme(op), Print(right, close), close, Weight(right));
      PrintSpans(left, tail);
      Next(LPAREN, Print(left, tail));
      Next(RPAREN, rest);
    case InExpr(left, values, isNot) =>
      OpeningGroup(left, Negation(isNot, [IN] + ([LPAREN] + PrintList(values, [RPAREN] + rest))));
    case LikeExpr(left, pattern, isNot) =>
      OpeningGroup(left, Negation(isNot, [Lexeme(Like, "LIKE")] + Print(pattern, rest)));
    case _ =>
  }

  lemma NamedIsLeaf(name: string, ts: seq<Lexeme>)
    ensures ParseNamed(name, ts).Ok? ==> !IsNode(ParseNamed(name, ts).value)
  {
    hide ParseArguments;
  }

  /** The unary level returns a binary node or a predicate only from a group. */
  lemma NodeIsGrouped(ts: seq<Lexeme>)
    requires ParseUnary(ts).Ok? && IsNode(ParseUnary(ts).value)
    ensures Kind(ts).LeftParen?
  {
    hide ParseNamed, ParseArguments, ParseExpression;
    NamedIsLeaf(Text(ts), Advance(ts));
    if UnaryAt(Kind(ts)).None? {
      assert ParseUnary(ts) == ParsePrimary(ts);
    }
  }

  /** So the unary level, reading such a group, stops no later. */
  lemma GroupStops(e: Expr, rest: seq<Lexeme>)
    requires Regular(e) && Kind(Print(e, rest)).LeftParen? && ParseUnary(Print(e, rest)).Ok?
    ensures |ParseUnary(Print(e, rest)).rest| >= |rest|
  {
    var ts := Print(e, rest);
    var inside := ParseExpression(Advance(ts));
    OpeningGroup(e, rest);
    ExpressionAccounts(Advance(ts));
    assert Pending(inside.rest)[0] == |inside.rest|;
  }

  /** A parenthesised binary node is read by the unary level as one group. */
  lemma GroupWhole(e: Expr, rest: seq<Lexeme>)
    requires Regular(e) && e.Binary? && ParseUnary(Print(e, rest)).Ok?
    ensures var inside := Print(e.left, [OperatorLexeme(e.bop)] + Print(e.right, [RPAREN] + rest));
            ParseExpression(inside) == Ok(ParseUnary(Print(e, rest)).value, [RPAREN] + rest)
    ensures ParseUnary(Print(e, rest)).rest == rest
  {
    var close := [RPAREN] + rest;
    var tail := [OperatorLexeme(e.bop)] + Print(e.right, close);
    var inside := Print(e.left, tail);
    var ts := Print(e, rest);
    PrintSpans(e.right, close);
    Prepend(OperatorLexeme(e.bop), Print(e.right, close), close, Weight(e.right));
    PrintSpans(e.left, tail);
    SpansTransitive(inside, tail, close, Weight(e.left), 1 + Weight(e.right));
    Next(LPAREN, inside);
    Next(RPAREN, rest);
    var r := ParseExpression(inside);
    ExpressionAccounts(inside);
    assert Pending(r.rest)[0] == |r.rest| && Pending(close)[0] == |close|;
    SuffixesNest(close, r.rest, inside);
    SuffixCounts(r.rest, close);
  }

  // The converse.

  ghost predicate FloatFree(e: Expr)
    decreases e
  {
    match e
    case FloatLit(_) => false
    case Unary(_, operand) => FloatFree(operand)
    case Binary(_, left, right) => FloatFree(left) && FloatFree(right)
    case FunctionCall(_, arguments) => forall a | a in arguments :: FloatFree(a)
    case Vector(elements) => forall a | a in elements :: FloatFree(a)
    case InExpr(left, values, _) => FloatFree(left) && forall a | a in values :: FloatFree(a)
    case BetweenExpr(left, start, end, _) => FloatFree(left) && FloatFree(start) && FloatFree(end)
    case LikeExpr(left, pattern, _) => FloatFree(left) && FloatFree(pattern)
    case _ => true
  }

  /** The slot an expression must fit if a level of the parser returns it. */
  function LevelSlot(level: nat): Slot {
    if level < COMPARISON then Operand else Free
  }

  /** An expression that a level reads back unchanged fits that level. */
  lemma {:induction false} ReadBackFits(e: Expr, level: nat, rest: seq<Lexeme>)
    requires level <= OR_LEVEL && FloatFree(e)
    requires ParseLevel(level, Print(e, rest)) == Ok(e, rest)
    ensures Fits(e, LevelSlot(level)) && (e.LikeExpr? ==> LogicEnds(rest))
    decreases e, 2
  {
    var ts := Print(e, rest);
    LevelAccounts(level, ts);
    if e.Binary? {
      NoMore(0, level, ts);
      GroupWhole(e, rest);
      assert ParseLevel(0, ts) == Ok(e, rest);
      Next(RPAREN, rest);
      GroupFits(e, [RPAREN] + rest);
    } else if IsNode(e) {
      PredicateFits(e, level, rest);
    } else {
      Bare(level, ts);
      BareFits(e, rest);
    }
  }

  lemma {:induction false} BareFits(e: Expr, rest: seq<Lexeme>)
    requires FloatFree(e) && Regular(e) && !IsNode(e)
    requires ParseUnary(Print(e, rest)) == Ok(e, rest)
    ensures Fits(e, Operand)
    decreases e, 1
  {
    match e
    case Unary(op, operand) =>
      Next(UnaryLexeme(op), Print(operand, rest));
      ReadBackFits(operand, 0, rest);
    case FunctionCall(name, arguments) =>
      CallStep(name, PrintList(arguments, [RPAREN] + rest));
      ArgumentsFit(arguments, RPAREN, "Expected ')' after function arguments", rest);
    case Vector(elements) =>
      VectorStep(PrintList(elements, [RBRACKET] + rest));
      ArgumentsFit(elements, RBRACKET, "Expected ']' after vector elements", rest);
    case _ =>
  }

  lemma {:induction false} ArgumentsFit(es: seq<Expr>, close: Lexeme, message: string, rest: seq<Lexeme>)
    requires forall a | a in es :: FloatFree(a) && Regular(a)
    requires close.kind.RightParen? || close.kind.RightBracket?
    requires ParseArguments(PrintList(es, [close] + rest), close.kind, message) == Ok(es, rest)
    ensures forall a | a in es :: Fits(a, Free)
    decreases es, 4
  {
    if es != [] {
      var end := [close] + rest;
      StartsPrinted(es[0], if |es| == 1 then end else [COMMA] + PrintList(es[1..], end));
      Next(close, rest);
      ListFits(es, end);
    }
  }

  lemma {:induction false} ListFits(es: seq<Expr>, end: seq<Lexeme>)
    requires es != [] && forall a | a in es :: FloatFree(a) && Regular(a)
    requires !Kind(end).LeftParen?
    requires var r := ParseList(PrintList(es, end)); r.Ok? && r.value == es && !Kind(r.rest).LeftParen?
    ensures ParseList(PrintList(es, end)).rest == end && forall a | a in es :: Fits(a, Free)
    decreases es, 3
  {
    var ts := PrintList(es, end);
    var first := ParseExpression(ts);
    ExpressionAccounts(ts);
    var tail := if |es| == 1 then end else [COMMA] + PrintList(es[1..], end);
    PrintSpans(es[0], tail);
    Align(ts, first.rest, tail, Weight(es[0]));
    ReadBackFits(es[0], OR_LEVEL, tail);
    if |es| > 1 {
      Next(COMMA, PrintList(es[1..], end));
      var more := ParseList(Advance(tail));
      assert ([es[0]] + more.value)[1..] == more.value;
      ListFits(es[1..], end);
    }
  }

  /** Levels without a predicate between them change nothing but to build binary nodes. */
  lemma {:induction false} NotChained(low: nat, high: nat, ts: seq<Lexeme>)
    requires low <= high <= OR_LEVEL && (high < COMPARISON || COMPARISON <= low)
    requires ParseLevel(high, ts).Ok? && !ParseLevel(high, ts).value.Binary?
    ensures ParseLevel(low, ts) == ParseLevel(high, ts)
    decreases high
  {
    if low < high {
      var left := ParseLevel(high - 1, ts);
      ChainGrows(high, left.value, left.rest);
      NotChained(low, high - 1, ts);
    }
  }

  /** What stands after the left side of a printed IN or LIKE, without the NOT. */
  function PredicateTail(e: Expr, rest: seq<Lexeme>): seq<Lexeme>
    requires e.InExpr? || e.LikeExpr?
  {
    if e.InExpr? then [IN] + ([LPAREN] + PrintList(e.values, [RPAREN] + rest))
    else [Lexeme(Like, "LIKE")] + Print(e.pattern, rest)
  }

  /** No arithmetic level reads back an IN or a LIKE: a group would end inside its left side. */
  lemma NeverOperand(e: Expr, level: nat, rest: seq<Lexeme>)
    requires Regular(e) && (e.InExpr? || e.LikeExpr?) && level <= ADDITIVE
    ensures ParseLevel(level, Print(e, rest)) != Ok(e, rest)
  {
    var ts := Print(e, rest);
    if ParseLevel(level, ts) == Ok(e, rest) {
      NotChained(0, level, ts);
      NodeIsGrouped(ts);
      var tail := Negation(e.isNot, PredicateTail(e, rest));
      assert ts == Print(e.left, tail);
      GroupStops(e.left, tail);
      assert false;
    }
  }

  lemma PrintedPredicate(e: Expr, rest: seq<Lexeme>)
    requires e.InExpr? || e.LikeExpr?
    ensures Print(e, rest) == Print(e.left, Negation(e.isNot, PredicateTail(e, rest)))
    ensures PredicateTail(e, rest) != [] && StartsPredicate(Kind(PredicateTail(e, rest)))
  {
    hide StartsPredicate;
    if e.InExpr? {
      Next(IN, [LPAREN] + PrintList(e.values, [RPAREN] + rest));
    } else {
      Next(Lexeme(Like, "LIKE"), Print(e.pattern, rest));
    }
    PredicateStarts();
  }

  lemma PredicateStarts()
    ensures StartsPredicate(In) && StartsPredicate(Like)
  {
  }

  lemma RegularParts(e: Expr)
    requires Regular(e) && (e.InExpr? || e.LikeExpr?)
    ensures Regular(e.left)
  {
  }

  /** The additive level read the printed left side before the predicate. */
  lemma PredicateLeft(e: Expr, level: nat, rest: seq<Lexeme>)
    requires level <= OR_LEVEL && Regular(e) && (e.InExpr? || e.LikeExpr?)
    requires ParseLevel(level, Print(e, rest)) == Ok(e, rest)
    ensures level >= COMPARISON
    ensures var ts := Print(e, rest);
            var left := ParseLevel(ADDITIVE, ts);
            && left.Ok? && left.value == e.left && !Kind(left.rest).LeftParen?
            && ParseLevel(COMPARISON, ts) == Ok(e, rest)
  {
    hide Weight, Spans, Regular, ParsePredicate, ParseChain, ParseUnary, Print;
    var ts := Print(e, rest);
    if level <= ADDITIVE {
      NeverOperand(e, level, rest);
    }
    NeverOperand(e, ADDITIVE, rest);
    NotChained(COMPARISON, level, ts);
    var left := ParseLevel(ADDITIVE, ts);
    ComparisonGrows(left.value, left.rest);
    assert e.left == left.value by {
      if StartsPredicate(Kind(left.rest)) {
        PredicateNode(left.value, left.rest, false);
      } else {
        PredicateNode(left.value, Advance(left.rest), true);
      }
    }
  }

  /** Where the parser found the predicate: right after the printed left side. */
  lemma PredicateFound(e: Expr, level: nat, rest: seq<Lexeme>)
    requires level <= OR_LEVEL && Regular(e) && (e.InExpr? || e.LikeExpr?)
    requires ParseLevel(level, Print(e, rest)) == Ok(e, rest)
    ensures level >= COMPARISON
    ensures var tail := PredicateTail(e, rest);
            && ParseLevel(ADDITIVE, Print(e.left, Negation(e.isNot, tail))) == Ok(e.left, Negation(e.isNot, tail))
            && ParsePredicate(e.left, tail, e.isNot) == Ok(e, rest)
  {
    hide Weight, Spans, Regular, ParsePredicate, ParseChain, ParseUnary, Print, ParseLevel;
    var ts := Print(e, rest);
    RegularParts(e);
    PrintedPredicate(e, rest);
    PredicateLeft(e, level, rest);
    var left := ParseLevel(ADDITIVE, ts);
    var tail := PredicateTail(e, rest);
    var printed := Negation(e.isNot, tail);
    Next(NOT, tail);
    LevelAccounts(ADDITIVE, ts);
    PrintSpans(e.left, printed);
    Align(ts, left.rest, printed, Weight(e.left));
    PredicateStep(e.left, e.isNot, ts, tail);
  }

  lemma {:induction false} PredicateFits(e: Expr, level: nat, rest: seq<Lexeme>)
    requires level <= OR_LEVEL && FloatFree(e) && Regular(e) && IsNode(e) && !e.Binary?
    requires ParseLevel(level, Print(e, rest)) == Ok(e, rest)
    ensures Fits(e, LevelSlot(level)) && (e.LikeExpr? ==> LogicEnds(rest))
    decreases e, 1
  {
    hide ParseLevel, ParseChain, ParseUnary, Print, Kind, Text, Advance;
    PredicateFound(e, level, rest);
    var tail := PredicateTail(e, rest);
    ReadBackFits(e.left, ADDITIVE, Negation(e.isNot, tail));
    if e.InExpr? {
      Next2(IN, LPAREN, PrintList(e.values, [RPAREN] + rest));
      ArgumentsFit(e.values, RPAREN, "Expected ')' after IN values", rest);
    } else {
      Next(Lexeme(Like, "LIKE"), Print(e.pattern, rest));
      ReadBackFits(e.pattern, OR_LEVEL, rest);
      ExpressionIsMaximal(Print(e.pattern, rest));
    }
  }

  /** The last turn of a chain: the operator it consumed and the operands it joined. */
  lemma {:induction false} LastTurn(level: nat, first: Expr, start: seq<Lexeme>) returns (mid: seq<Lexeme>)
    requires 0 < level <= OR_LEVEL && level != COMPARISON && Regular(first)
    requires var r := ParseChain(level, first, start); r.Ok? && r != Ok(first, start)
    ensures var r := ParseChain(level, first, start);
            && r.value.Binary? && OperatorAt(level, Kind(mid)) == Some(r.value.bop)
            && ParseLevel(level - 1, Advance(mid)) == Ok(r.value.right, r.rest)
            && Spans(start, mid, Weight(r.value.left) - Weight(first))
            && ((r.value.left == first && mid == start) || (r.value.left.Binary? && |mid| < |start|))
    decreases |start|
  {
    var op := OperatorAt(level, Kind(start));
    var right := ParseLevel(level - 1, Advance(start));
    var node := Binary(op.value, first, right.value);
    LevelAccounts(level - 1, Advance(start));
    if ParseChain(level, node, right.rest) == Ok(node, right.rest) {
      mid := start;
    } else {
      mid := LastTurn(level, node, right.rest);
      OperandSpans(start, right.value, right.rest);
      SpansTransitive(start, right.rest, mid, 1 + Weight(right.value),
                      Weight(ParseChain(level, first, start).value.left) - Weight(node));
    }
  }

  /** Which level built a binary node, where its operator stands, and how its operands were read. */
  lemma {:induction false} Split(level: nat, ts: seq<Lexeme>) returns (k: nat, mid: seq<Lexeme>)
    requires level <= OR_LEVEL && ParseLevel(level, ts).Ok? && ParseLevel(level, ts).value.Binary?
    requires ParseLevel(0, ts) != ParseLevel(level, ts)
    ensures 1 <= k <= level && ParseLevel(k - 1, ts).Ok?
    ensures var r, first := ParseLevel(level, ts), ParseLevel(k - 1, ts);
            && OperatorAt(k, Kind(mid)) == Some(r.value.bop)
            && ParseLevel(k - 1, Advance(mid)) == Ok(r.value.right, r.rest)
            && Spans(ts, mid, Weight(r.value.left))
            && (first == Ok(r.value.left, mid) || (r.value.left.Binary? && |mid| < |first.rest|))
    decreases level
  {
    hide Spans, ParseComparison, ParseUnary;
    var first := ParseLevel(level - 1, ts);
    LevelAccounts(level - 1, ts);
    if first == ParseLevel(level, ts) {
      k, mid := Split(level - 1, ts);
    } else if level == COMPARISON {
      k, mid := level, first.rest;
      ComparisonJoins(first.value, first.rest);
    } else {
      k := level;
      mid := LastTurn(level, first.value, first.rest);
      SpansTransitive(ts, first.rest, mid, Weight(first.value),
                      Weight(ParseLevel(level, ts).value.left) - Weight(first.value));
    }
  }

  lemma ComparisonJoins(left: Expr, ts: seq<Lexeme>)
    requires var r := ParseComparison(left, ts); r.Ok? && r.value.Binary? && r != Ok(left, ts)
    ensures var r := ParseComparison(left, ts);
            && r.value.left == left && OperatorAt(COMPARISON, Kind(ts)) == Some(r.value.bop)
            && ParseLevel(ADDITIVE, Advance(ts)) == Ok(r.value.right, r.rest)
  {
    if OperatorAt(COMPARISON, Kind(ts)).None? {
      if StartsPredicate(Kind(ts)) {
        PredicateNode(left, ts, false);
      } else {
        PredicateNode(left, Advance(ts), true);
      }
    }
  }

  lemma {:induction false} GroupFits(e: Expr, close: seq<Lexeme>)
    requires e.Binary? && FloatFree(e) && Regular(e) && Kind(close).RightParen?
    requires ParseLevel(OR_LEVEL, Print(e.left, [OperatorLexeme(e.bop)] + Print(e.right, close))) == Ok(e, close)
    ensures Fits(e, Operand)
    decreases e, 0
  {
    hide ParseExpression, Print, Spans, Weight;
    assert FloatFree(e.left) && FloatFree(e.right) && Regular(e.left) && Regular(e.right);
    hide FloatFree, Regular;
    var tail := [OperatorLexeme(e.bop)] + Print(e.right, close);
    var ts := Print(e.left, tail);
    OperatorStep(e.bop, Print(e.right, close));
    NotInside(e, tail, close);
    var k, mid := Split(OR_LEVEL, ts);
    PrintSpans(e.left, tail);
    Align(ts, mid, tail, Weight(e.left));
    ReadBackFits(e.right, k - 1, close);
    if ParseLevel(k - 1, ts) == Ok(e.left, tail) {
      ReadBackFits(e.left, k - 1, tail);
    } else {
      NoMore(0, k - 1, ts);
      GroupWhole(e.left, tail);
      assert false;
    }
  }

  /** A group that opens the left operand cannot hold the whole node. */
  lemma NotInside(e: Expr, tail: seq<Lexeme>, close: seq<Lexeme>)
    requires e.Binary? && Regular(e) && |close| < |tail|
    ensures ParseLevel(0, Print(e.left, tail)) != Ok(e, close)
  {
    var ts := Print(e.left, tail);
    if ParseLevel(0, ts) == Ok(e, close) {
      NodeIsGrouped(ts);
      GroupStops(e.left, tail);
      assert false;
    }
  }

  /**
   * Exactly the expressions that fit are read back: for every expression without floats and every remainder
   * that cannot continue an expression.
   */
  lemma RoundTripExactly(e: Expr, rest: seq<Lexeme>)
    requires FloatFree(e) && Ends(Free, Kind(rest))
    ensures ParseExpression(Print(e, rest)) == Ok(e, rest) <==> Fits(e, Free)
  {
    if Fits(e, Free) {
      FreeParses(e, rest);
    } else if ParseExpression(Print(e, rest)) == Ok(e, rest) {
      ReadBackFits(e, OR_LEVEL, rest);
    }
  }
}
