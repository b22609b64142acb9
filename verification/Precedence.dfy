/**
 * Operator precedence and associativity, stated on token kinds: how expressions written without parentheses are
 * read.  The table below is a reference of its own; the grammar is proved to follow it.
 */
module Precedence {
  import opened Wrappers
  import opened Tokens
  import opened Ast
  import opened Grammar
  import opened Printing
  import opened RoundTrip

  /** A binary operator's token, its meaning, and how loosely it binds. */
  datatype Entry = Entry(kind: TokenType, op: BinaryOp, rank: nat)

  const TABLE := [
    Entry(Star, OpMultiply, 1), Entry(Slash, OpDivide, 1), Entry(Modulo, OpModulo, 1),
    Entry(Plus, OpPlus, 2), Entry(Minus, OpMinus, 2),
    Entry(Equal, OpEqual, 3), Entry(NotEqual, OpNotEqual, 3), Entry(LessThan, OpLessThan, 3),
    Entry(GreaterThan, OpGreaterThan, 3), Entry(LessEqual, OpLessEqual, 3), Entry(GreaterEqual, OpGreaterEqual, 3),
    Entry(And, OpAnd, 4), Entry(Or, OpOr, 5)]

  const COMPARING := 3

  /** Operands joined by operators of the table, as a tree. */
  datatype Chain = Leaf(operand: Expr) | Node(entry: Entry, left: Chain, right: Chain)

  function Rank(c: Chain): nat {
    if c.Leaf? then 0 else c.entry.rank
  }

  /**
   * The tree follows the ranks: what stands to the left of an operator binds at least as tightly, what stands to
   * the right more tightly; comparisons do not stand next to each other.
   */
  ghost predicate Ranked(c: Chain) {
    match c
    case Leaf(operand) => Fits(operand, Operand)
    case Node(entry, left, right) =>
      && entry in TABLE && Ranked(left) && Ranked(right) && Rank(right) < entry.rank
      && if entry.rank == COMPARING then Rank(left) < entry.rank else Rank(left) <= entry.rank
  }

  function Tree(c: Chain): Expr {
    match c
    case Leaf(operand) => operand
    case Node(entry, left, right) => Binary(entry.op, Tree(left), Tree(right))
  }

  /** The tokens without any parentheses around binary nodes; the texts of operators do not matter. */
  ghost function Flat(c: Chain, rest: seq<Lexeme>): (ts: seq<Lexeme>)
    ensures |ts| > |rest|
  {
    match c
    case Leaf(operand) => Print(operand, rest)
    case Node(entry, left, right) => Flat(left, [Lexeme(entry.kind, "")] + Flat(right, rest))
  }

  /** A token that continues no expression. */
  ghost predicate Closes(kind: TokenType) {
    && (forall entry | entry in TABLE :: entry.kind != kind)
    && !kind.In? && !kind.Between? && !kind.Like? && !kind.Not? && !kind.LeftParen? && !kind.Dot?
  }

  lemma TableRead(entry: Entry)
    requires entry in TABLE
    ensures BinaryOperator(entry.kind) == Some(entry.op) && LevelOf(entry.op) == entry.rank
    ensures !StartsPredicate(entry.kind) && !entry.kind.Not? && Ends(Operand, entry.kind)
  {
  }

  lemma TableComplete(kind: TokenType)
    ensures BinaryOperator(kind).Some? ==>
              exists entry :: entry in TABLE && entry.kind == kind && entry.rank == LevelOf(BinaryOperator(kind).value)
  {
    if BinaryOperator(kind).Some? {
      var op := BinaryOperator(kind).value;
      assert exists i :: 0 <= i < |TABLE| && TABLE[i] == Entry(kind, op, LevelOf(op)) by {
        assert TABLE[if kind.Star? then 0 else if kind.Slash? then 1 else if kind.Modulo? then 2
                     else if kind.Plus? then 3 else if kind.Minus? then 4 else if kind.Equal? then 5
                     else if kind.NotEqual? then 6 else if kind.LessThan? then 7 else if kind.GreaterThan? then 8
                     else if kind.LessEqual? then 9 else if kind.GreaterEqual? then 10
                     else if kind.And? then 11 else 12] == Entry(kind, op, LevelOf(op));
      }
    }
  }

  lemma ClosesQuietly(kind: TokenType)
    requires Closes(kind)
    ensures Quiet(OR_LEVEL, kind) && Ends(Operand, kind)
  {
    TableComplete(kind);
  }

  /** What a level makes of its first operand and what follows. */
  function Continued(level: nat, e: Expr, rest: seq<Lexeme>): Parse<Expr>
    requires level <= OR_LEVEL
  {
    if level == 0 then Ok(e, rest)
    else if level == COMPARISON then ParseComparison(e, rest)
    else ParseChain(level, e, rest)
  }

  lemma QuietEnds(level: nat, e: Expr, rest: seq<Lexeme>)
    requires level <= OR_LEVEL && Quiet(level, Kind(rest))
    ensures Continued(level, e, rest) == Ok(e, rest)
  {
  }

  /** A level reads the tokens of a ranked tree that binds as tightly, and goes on with what follows. */
  lemma {:induction false} ChainReads(c: Chain, level: nat, rest: seq<Lexeme>)
    requires Ranked(c) && Rank(c) <= level <= OR_LEVEL
    requires Ends(Operand, Kind(rest)) && (level > 0 ==> Quiet(level - 1, Kind(rest)))
    ensures ParseLevel(level, Flat(c, rest)) ==
            if level == COMPARISON && Rank(c) == COMPARISON then Ok(Tree(c), rest)
            else Continued(level, Tree(c), rest)
    decreases c, level
  {
    hide Kind, Advance, Ends, Quiet, Fits, Print, ParseUnary, ParseComparison, ParseChain;
    if level == 0 {
      OperandParses(c.operand, rest);
    } else if Rank(c) < level {
      QuieterBelow(level - 1, Kind(rest));
      ChainReads(c, level - 1, rest);
      QuietEnds(level - 1, Tree(c), rest);
    } else {
      NodeReads(c, rest);
    }
  }

  lemma QuieterBelow(level: nat, kind: TokenType)
    requires Quiet(level, kind)
    ensures level > 0 ==> Quiet(level - 1, kind)
  {
  }

  lemma {:induction false} NodeReads(c: Chain, rest: seq<Lexeme>)
    requires Ranked(c) && c.Node?
    requires Ends(Operand, Kind(rest)) && c.entry.rank <= OR_LEVEL && c.entry.rank > 0
    requires Quiet(c.entry.rank - 1, Kind(rest))
    ensures ParseLevel(c.entry.rank, Flat(c, rest)) ==
            if c.entry.rank == COMPARISON then Ok(Tree(c), rest) else Continued(c.entry.rank, Tree(c), rest)
    decreases c, 0
  {
    hide Fits, Print, ParseUnary, Ends, ParseChain, ParseComparison, Kind, Advance, BinaryOperator;
    var level := c.entry.rank;
    var t := Lexeme(c.entry.kind, "");
    var more := Flat(c.right, rest);
    TableRead(c.entry);
    Next(t, more);
    QuieterBelow(level - 1, Kind(rest));
    ChainReads(c.right, level - 1, rest);
    QuietEnds(level - 1, Tree(c.right), rest);
    if level == COMPARISON {
      ChainReads(c.left, level - 1, [t] + more);
      QuietEnds(level - 1, Tree(c.left), [t] + more);
      ComparisonStep(c.entry, Tree(c.left), [t] + more, Tree(c.right), rest);
    } else {
      ChainReads(c.left, level, [t] + more);
      ChainStep(c.entry, Tree(c.left), [t] + more, Tree(c.right), rest);
    }
  }

  lemma ChainStep(entry: Entry, left: Expr, ts: seq<Lexeme>, right: Expr, rest: seq<Lexeme>)
    requires Kind(ts) == entry.kind && BinaryOperator(entry.kind) == Some(entry.op)
    requires LevelOf(entry.op) == entry.rank && entry.rank != COMPARISON
    requires ParseLevel(entry.rank - 1, Advance(ts)) == Ok(right, rest)
    ensures ParseChain(entry.rank, left, ts) == ParseChain(entry.rank, Binary(entry.op, left, right), rest)
  {
    hide Kind, Advance, BinaryOperator, LevelOf, ParseLevel;
  }

  lemma ComparisonStep(entry: Entry, left: Expr, ts: seq<Lexeme>, right: Expr, rest: seq<Lexeme>)
    requires Kind(ts) == entry.kind && BinaryOperator(entry.kind) == Some(entry.op)
    requires LevelOf(entry.op) == COMPARISON
    requires ParseLevel(ADDITIVE, Advance(ts)) == Ok(right, rest)
    ensures ParseComparison(left, ts) == Ok(Binary(entry.op, left, right), rest)
  {
    hide Kind, Advance, BinaryOperator, LevelOf, ParseLevel;
  }

  /**
   * Precedence and associativity: whatever operators of the table stand between operands, without parentheses and
   * in any number, the parser reads the tree that follows the ranks.
   */
  lemma FlatParses(c: Chain, rest: seq<Lexeme>)
    requires Ranked(c) && Closes(Kind(rest))
    ensures ParseExpression(Flat(c, rest)) == Ok(Tree(c), rest)
  {
    hide Quiet, Ends, Fits, Print, ParseLevel, ParseComparison, Kind, Closes, StartsExpression, ParseChain;
    ClosesQuietly(Kind(rest));
    RankBound(c);
    QuieterBelow(OR_LEVEL, Kind(rest));
    ChainReads(c, OR_LEVEL, rest);
    QuietEnds(OR_LEVEL, Tree(c), rest);
    FlatStarts(c, rest);
  }

  lemma RankBound(c: Chain)
    requires Ranked(c)
    ensures Rank(c) <= OR_LEVEL
  {
  }

  lemma {:induction false} FlatStarts(c: Chain, rest: seq<Lexeme>)
    requires Ranked(c)
    ensures StartsExpression(Kind(Flat(c, rest)))
  {
    hide Kind, Print, StartsExpression;
    match c
    case Leaf(operand) => StartsPrinted(operand, rest);
    case Node(entry, left, right) => FlatStarts(left, [Lexeme(entry.kind, "")] + Flat(right, rest));
  }

  // Two operators between three operands, spelled out.

  function TwoOperators(a: Expr, first: Entry, b: Expr, second: Entry, c: Expr): Expr {
    if first.rank <= second.rank then Binary(second.op, Binary(first.op, a, b), c)
    else Binary(first.op, a, Binary(second.op, b, c))
  }

  /** The tighter operator binds first, and of two equally tight ones the left one. */
  lemma TwoOperatorsParse(a: Expr, first: Entry, b: Expr, second: Entry, c: Expr, rest: seq<Lexeme>)
    requires Fits(a, Operand) && Fits(b, Operand) && Fits(c, Operand) && Closes(Kind(rest))
    requires first in TABLE && second in TABLE && !(first.rank == COMPARING && second.rank == COMPARING)
    ensures ParseExpression(Print(a, [Lexeme(first.kind, "")] + Print(b, [Lexeme(second.kind, "")] + Print(c, rest))))
         == Ok(TwoOperators(a, first, b, second, c), rest)
  {
    hide Fits, Print, ParseExpression, Closes;
    TableRanks(first);
    TableRanks(second);
    if first.rank <= second.rank {
      var inner := Node(first, Leaf(a), Leaf(b));
      assert Ranked(Leaf(a)) && Ranked(Leaf(b)) && Ranked(Leaf(c)) && Ranked(inner);
      assert Tree(inner) == Binary(first.op, a, b);
      assert Flat(inner, [Lexeme(second.kind, "")] + Print(c, rest))
          == Print(a, [Lexeme(first.kind, "")] + Print(b, [Lexeme(second.kind, "")] + Print(c, rest)));
      FlatParses(Node(second, inner, Leaf(c)), rest);
    } else {
      var inner := Node(second, Leaf(b), Leaf(c));
      assert Ranked(Leaf(a)) && Ranked(Leaf(b)) && Ranked(Leaf(c)) && Ranked(inner);
      assert Tree(inner) == Binary(second.op, b, c);
      assert Flat(inner, rest) == Print(b, [Lexeme(second.kind, "")] + Print(c, rest)) by {
        assert Flat(Leaf(c), rest) == Print(c, rest);
      }
      FlatParses(Node(first, Leaf(a), inner), rest);
    }
  }

  lemma TableRanks(entry: Entry)
    requires entry in TABLE
    ensures 1 <= entry.rank <= 5
  {
  }

  /** A token that would begin a comparison or a predicate. */
  ghost predicate Compares(kind: TokenType) {
    || (exists entry :: entry in TABLE && entry.kind == kind && entry.rank == COMPARING)
    || kind.In? || kind.Between? || kind.Like? || kind.Not?
  }

  lemma ComparesLoosely(kind: TokenType)
    requires Compares(kind)
    ensures Ends(Operand, kind) && Quiet(ADDITIVE, kind)
    ensures OperatorAt(AND_LEVEL, kind).None? && OperatorAt(OR_LEVEL, kind).None?
  {
    if entry :| entry in TABLE && entry.kind == kind && entry.rank == COMPARING {
      TableRead(entry);
    }
  }

  /** Comparisons do not chain, nor do IN, BETWEEN and LIKE follow one: what stands there is left standing. */
  lemma ComparisonsDoNotChain(c: Chain, t: Lexeme, more: seq<Lexeme>)
    requires Ranked(c) && Rank(c) == COMPARING && Compares(t.kind)
    ensures ParseExpression(Flat(c, [t] + more)) == Ok(Tree(c), [t] + more)
  {
    hide Fits, Print, Kind, ParseLevel, Compares, Ends, Quiet, OperatorAt, StartsExpression, Flat, Ranked;
    var rest := [t] + more;
    ComparesLoosely(t.kind);
    Next(t, more);
    NodeReads(c, rest);
    FlatStarts(c, rest);
    LogicStops(Flat(c, rest), Tree(c), rest);
  }

  /** IN and LIKE, negated or not, take everything arithmetic to their left as their left side. */
  lemma PredicatesTakeArithmetic(c: Chain, isNot: bool, tail: seq<Lexeme>)
    requires Ranked(c) && Rank(c) < COMPARING && StartsPredicate(Kind(tail))
    ensures ParseLevel(COMPARISON, Flat(c, Negation(isNot, tail))) == ParsePredicate(Tree(c), tail, isNot)
  {
    hide Fits, Print, ParseUnary, ParsePredicate, ParseLevel, StartsPredicate;
    var rest := Negation(isNot, tail);
    NegationEnds(isNot, tail);
    ChainReads(c, ADDITIVE, rest);
    QuietEnds(ADDITIVE, Tree(c), rest);
    PredicateStep(Tree(c), isNot, Flat(c, rest), tail);
  }

  lemma NegationEnds(isNot: bool, tail: seq<Lexeme>)
    requires StartsPredicate(Kind(tail))
    ensures Ends(Operand, Kind(Negation(isNot, tail))) && Quiet(ADDITIVE, Kind(Negation(isNot, tail)))
    ensures Quiet(ADDITIVE - 1, Kind(Negation(isNot, tail)))
  {
    Next(NOT, tail);
  }

  lemma LogicStops(ts: seq<Lexeme>, e: Expr, rest: seq<Lexeme>)
    requires ParseLevel(COMPARISON, ts) == Ok(e, rest)
    requires OperatorAt(AND_LEVEL, Kind(rest)).None? && OperatorAt(OR_LEVEL, Kind(rest)).None?
    ensures ParseLevel(OR_LEVEL, ts) == Ok(e, rest)
  {
    assert ParseLevel(AND_LEVEL, ts) == Ok(e, rest);
  }

  /** After the arithmetic levels, and after AND and OR, no operator follows that the level would have taken. */
  lemma {:induction false} LevelLeavesNone(level: nat, ts: seq<Lexeme>, entry: Entry)
    requires level <= OR_LEVEL && ParseLevel(level, ts).Ok?
    requires entry in TABLE && entry.rank <= level && (level < COMPARING || entry.rank > COMPARING)
    ensures Kind(ParseLevel(level, ts).rest) != entry.kind
    decreases |ts|, level, 1
  {
    hide Kind, Advance, ParseUnary;
    TableRanks(entry);
    var left := ParseLevel(level - 1, ts);
    if entry.rank < level {
      LevelLeavesNone(level - 1, ts, entry);
    }
    ChainLeavesNone(level, left.value, left.rest, entry, |ts|);
  }

  lemma {:induction false} ChainLeavesNone(level: nat, left: Expr, ts: seq<Lexeme>, entry: Entry, size: nat)
    requires 0 < level <= OR_LEVEL && level != COMPARISON && ParseChain(level, left, ts).Ok? && |ts| < size
    requires entry in TABLE && entry.rank <= level && (level < COMPARING || entry.rank > COMPARING)
    requires entry.rank < level ==> Kind(ts) != entry.kind
    ensures Kind(ParseChain(level, left, ts).rest) != entry.kind
    decreases size, level, 0, |ts|
  {
    TableRead(entry);
    var op := OperatorAt(level, Kind(ts));
    if op.Some? {
      var right := ParseLevel(level - 1, Advance(ts));
      if entry.rank < level {
        LevelLeavesNone(level - 1, Advance(ts), entry);
      }
      ChainLeavesNone(level, Binary(op.value, left, right.value), right.rest, entry, size);
    }
  }
}
