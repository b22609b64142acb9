/** Expressions whose printed tokens the parser reads back unchanged. */
module RoundTrip {
  import opened Wrappers
  import opened Tokens
  import opened Ast
  import opened Grammar
  import opened Printing

  /** Where an expression stands: as an operand, to the left of AND or OR, or where any expression may stand. */
  datatype Slot = Operand | LogicLeft | Free

  function LeftSlot(op: BinaryOp): Slot {
    if op == OpAnd || op == OpOr then LogicLeft else Operand
  }

  function RightSlot(op: BinaryOp): Slot {
    if op == OpAnd || op == OpOr then Free else Operand
  }

  /**
   * The expressions that survive printing and parsing.  The printer puts parentheses around binary nodes
   * only, so IN and LIKE are exposed to whatever stands next to them.
   */
  ghost predicate Fits(e: Expr, slot: Slot)
    decreases e
  {
    match e
    case IntLit(n) => 0 <= n <= MAX_INT64
    case FloatLit(_) => false
    case StringLit(_) => true
    case BoolLit(_) => true
    case NullLit => true
    case ColumnRef(database, collection, _) => database.Some? ==> collection.Some?
    case Unary(_, operand) => Fits(operand, Operand)
    case Binary(op, left, right) => Fits(left, LeftSlot(op)) && Fits(right, RightSlot(op))
    case FunctionCall(_, arguments) => forall a | a in arguments :: Fits(a, Free)
    case Vector(elements) => forall a | a in elements :: Fits(a, Free)
    case InExpr(left, values, _) =>
      slot != Operand && Fits(left, Operand) && forall a | a in values :: Fits(a, Free)
    case BetweenExpr(_, _, _, _) => false
    case LikeExpr(left, pattern, _) => slot == Free && Fits(left, Operand) && Fits(pattern, Free)
  }

  /** The token starts no binary operator of the levels up to the given one, and no predicate at that level. */
  predicate Quiet(level: nat, kind: TokenType) {
    && (BinaryOperator(kind).Some? ==> LevelOf(BinaryOperator(kind).value) > level)
    && (level >= COMPARISON ==> !StartsPredicate(kind) && !kind.Not?)
  }

  /** The tokens that can follow a complete expression in a slot. */
  predicate Ends(slot: Slot, kind: TokenType) {
    && !kind.LeftParen? && !kind.Dot?
    && match slot
       case Operand => true
       case LogicLeft => Quiet(COMPARISON, kind)
       case Free => Quiet(OR_LEVEL, kind)
  }

  lemma {:induction false} Climb(low: nat, high: nat, ts: seq<Lexeme>)
    requires low <= high <= OR_LEVEL
    requires ParseLevel(low, ts).Ok? && Quiet(high, Kind(ParseLevel(low, ts).rest))
    ensures ParseLevel(high, ts) == ParseLevel(low, ts)
    decreases high
  {
    if low < high {
      Climb(low, high - 1, ts);
    }
  }

  function SlotLevel(slot: Slot): nat {
    if slot == Operand then 0 else COMPARISON
  }

  // One step of consuming a token that was just printed.
  lemma Next(t: Lexeme, rest: seq<Lexeme>)
    ensures Kind([t] + rest) == t.kind && Text([t] + rest) == t.value && Advance([t] + rest) == rest
  {
  }

  lemma Next2(t: Lexeme, u: Lexeme, rest: seq<Lexeme>)
    ensures Advance([t] + ([u] + rest)) == [u] + rest && Advance([u] + rest) == rest
  {
  }

  // What one level of the parser does with operands that are known to parse.

  lemma OperatorStep(op: BinaryOp, printed: seq<Lexeme>)
    ensures var tail := [OperatorLexeme(op)] + printed;
            && BinaryOperator(Kind(tail)) == Some(op) && Advance(tail) == printed
            && Ends(LeftSlot(op), Kind(tail)) && Quiet(LevelOf(op) - 1, Kind(tail))
  {
    Next(OperatorLexeme(op), printed);
  }

  lemma BinaryStep(op: BinaryOp, left: Expr, right: Expr, ts: seq<Lexeme>, tail: seq<Lexeme>, close: seq<Lexeme>)
    requires BinaryOperator(Kind(tail)) == Some(op) && Kind(close).RightParen?
    requires ParseLevel(LevelOf(op) - 1, ts) == Ok(left, tail)
    requires ParseLevel(LevelOf(op) - 1, Advance(tail)) == Ok(right, close)
    ensures ParseLevel(LevelOf(op), ts) == Ok(Binary(op, left, right), close)
  {
    var level := LevelOf(op);
    if level != COMPARISON {
      assert ParseChain(level, Binary(op, left, right), close) == Ok(Binary(op, left, right), close);
    }
  }

  lemma PredicateStep(left: Expr, isNot: bool, ts: seq<Lexeme>, tail: seq<Lexeme>)
    requires StartsPredicate(Kind(tail))
    requires ParseLevel(ADDITIVE, ts) == Ok(left, Negation(isNot, tail))
    ensures ParseLevel(COMPARISON, ts) == ParsePredicate(left, tail, isNot)
  {
    hide ParsePredicate, ParseUnary;
    var rest := Negation(isNot, tail);
    assert ParseLevel(COMPARISON, ts) == ParseComparison(left, rest);
    Next(NOT, tail);
    assert BinaryOperator(Kind(rest)) == None;
  }

  lemma PrimaryStep(t: Lexeme, rest: seq<Lexeme>)
    requires UnaryAt(t.kind).None?
    ensures ParseUnary([t] + rest) == ParsePrimary([t] + rest)
  {
    hide ParsePrimary;
    Next(t, rest);
  }

  lemma NameStep(name: string, rest: seq<Lexeme>)
    ensures ParseUnary([Name(name)] + rest) == ParseNamed(name, rest)
  {
    hide ParseColumn, ParseArguments, ParseExpression;
    PrimaryStep(Name(name), rest);
    Next(Name(name), rest);
  }

  lemma ColumnParses(e: Expr, rest: seq<Lexeme>)
    requires e.ColumnRef? && Fits(e, Operand) && Ends(Operand, Kind(rest))
    ensures ParseUnary(Print(e, rest)) == Ok(e, rest)
  {
    hide ParsePrimary, ParseArguments;
    var last := [Name(e.column)] + rest;
    Next(Name(e.column), rest);
    if e.collection.None? {
      NameStep(e.column, rest);
    } else {
      var tail := [DOT] + last;
      Next(DOT, last);
      Next2(Name(e.collection.value), DOT, last);
      if e.database.None? {
        NameStep(e.collection.value, tail);
      } else {
        var middle := [Name(e.collection.value)] + tail;
        Next(Name(e.collection.value), tail);
        Next2(Name(e.database.value), DOT, middle);
        Next(DOT, middle);
        NameStep(e.database.value, [DOT] + middle);
      }
    }
  }

  lemma IntegerStep(n: nat, rest: seq<Lexeme>)
    requires n <= MAX_INT64
    ensures ParseUnary([Lexeme(IntegerLiteral, Decimal(n))] + rest) == Ok(IntLit(n), rest)
  {
    DecimalReadsBack(n);
    PrimaryStep(Lexeme(IntegerLiteral, Decimal(n)), rest);
  }

  lemma StringStep(s: string, rest: seq<Lexeme>)
    ensures ParseUnary([Lexeme(StringLiteral, s)] + rest) == Ok(StringLit(s), rest)
  {
    PrimaryStep(Lexeme(StringLiteral, s), rest);
  }

  lemma ConstantStep(e: Expr, rest: seq<Lexeme>)
    requires e.BoolLit? || e.NullLit?
    ensures ParseUnary(Print(e, rest)) == Ok(e, rest)
  {
    hide ParseArguments, ParseNamed, ParseExpression;
    var t := if e.NullLit? then Lexeme(Null, "NULL") else if e.b then Lexeme(True, "TRUE") else Lexeme(False, "FALSE");
    PrimaryStep(t, rest);
    Next(t, rest);
  }

  lemma UnaryStep(op: UnaryOp, ts: seq<Lexeme>)
    ensures ParseUnary([UnaryLexeme(op)] + ts)
         == var r := ParseUnary(ts); if r.Ok? then Ok(Unary(op, r.value), r.rest) else Fail(r.message)
  {
    hide ParsePrimary;
    Next(UnaryLexeme(op), ts);
  }

  lemma CallStep(name: string, list: seq<Lexeme>)
    ensures ParseUnary([Name(name)] + ([LPAREN] + list))
         == var r := ParseArguments(list, RightParen, "Expected ')' after function arguments");
            if r.Ok? then Ok(FunctionCall(name, r.value), r.rest) else Fail(r.message)
  {
    Next2(Name(name), LPAREN, list);
    NameStep(name, [LPAREN] + list);
    Next(LPAREN, list);
  }

  lemma VectorStep(list: seq<Lexeme>)
    ensures ParseUnary([LBRACKET] + list)
         == var r := ParseArguments(list, RightBracket, "Expected ']' after vector elements");
            if r.Ok? then Ok(Vector(r.value), r.rest) else Fail(r.message)
  {
    hide ParseArguments, ParseNamed, ParseExpression;
    PrimaryStep(LBRACKET, list);
  }

  lemma GroupStep(inside: seq<Lexeme>, e: Expr, rest: seq<Lexeme>)
    requires ParseExpression(inside) == Ok(e, [RPAREN] + rest)
    ensures ParseUnary([LPAREN] + inside) == Ok(e, rest)
  {
    hide ParseLevel, ParseArguments;
    PrimaryStep(LPAREN, inside);
    Next(RPAREN, rest);
  }

  /** A printed expression that fits a slot is read back at the slot's level. */
  lemma {:induction false} SlotParses(e: Expr, slot: Slot, rest: seq<Lexeme>)
    requires Fits(e, slot) && Ends(slot, Kind(rest))
    ensures ParseLevel(SlotLevel(slot), Print(e, rest)) == Ok(e, rest)
    decreases e, 2
  {
    if e.InExpr? {
      InParses(e, rest);
    } else if e.LikeExpr? {
      LikeParses(e, rest);
    } else {
      OperandParses(e, rest);
      Climb(0, SlotLevel(slot), Print(e, rest));
    }
  }

  /** The same at any level above, when what follows is no operator of those levels. */
  lemma {:induction false} LevelParses(e: Expr, slot: Slot, level: nat, rest: seq<Lexeme>)
    requires Fits(e, slot) && Ends(slot, Kind(rest))
    requires SlotLevel(slot) <= level <= OR_LEVEL && Quiet(level, Kind(rest))
    ensures ParseLevel(level, Print(e, rest)) == Ok(e, rest)
    decreases e, 3
  {
    SlotParses(e, slot, rest);
    Climb(SlotLevel(slot), level, Print(e, rest));
  }

  lemma {:induction false} FreeParses(e: Expr, rest: seq<Lexeme>)
    requires Fits(e, Free) && Ends(Free, Kind(rest))
    ensures ParseExpression(Print(e, rest)) == Ok(e, rest)
    decreases e, 4
  {
    LevelParses(e, Free, OR_LEVEL, rest);
    StartsPrinted(e, rest);
  }

  lemma {:induction false} InParses(e: Expr, rest: seq<Lexeme>)
    requires e.InExpr? && Fits(e, Free)
    ensures ParseLevel(COMPARISON, Print(e, rest)) == Ok(e, rest)
    decreases e, 1
  {
    var list := PrintList(e.values, [RPAREN] + rest);
    var tail := [IN] + ([LPAREN] + list);
    Next2(IN, LPAREN, list);
    LevelParses(e.left, Operand, ADDITIVE, Negation(e.isNot, tail));
    PredicateStep(e.left, e.isNot, Print(e, rest), tail);
    ArgumentsParse(e.values, RPAREN, "Expected ')' after IN values", rest);
  }

  lemma {:induction false} LikeParses(e: Expr, rest: seq<Lexeme>)
    requires e.LikeExpr? && Fits(e, Free) && Ends(Free, Kind(rest))
    ensures ParseLevel(COMPARISON, Print(e, rest)) == Ok(e, rest)
    decreases e, 1
  {
    var printed := Print(e.pattern, rest);
    var tail := [Lexeme(Like, "LIKE")] + printed;
    Next(Lexeme(Like, "LIKE"), printed);
    LevelParses(e.left, Operand, ADDITIVE, Negation(e.isNot, tail));
    PredicateStep(e.left, e.isNot, Print(e, rest), tail);
    FreeParses(e.pattern, rest);
  }

  lemma {:induction false} OperandParses(e: Expr, rest: seq<Lexeme>)
    requires Fits(e, Operand) && Ends(Operand, Kind(rest))
    ensures ParseUnary(Print(e, rest)) == Ok(e, rest)
    decreases e, 1
  {
    hide ParseUnary, ParseChain, ParseExpression, ParseArguments, Kind, Text, Advance;
    match e
    case IntLit(n) => IntegerStep(n, rest);
    case StringLit(s) => StringStep(s, rest);
    case BoolLit(b) => ConstantStep(e, rest);
    case NullLit => ConstantStep(e, rest);
    case ColumnRef(_, _, _) => ColumnParses(e, rest);
    case Unary(op, operand) =>
      OperandParses(operand, rest);
      UnaryStep(op, Print(operand, rest));
    case Binary(op, left, right) =>
      Next(RPAREN, rest);
      GroupParses(e, [RPAREN] + rest);
      GroupStep(Print(left, [OperatorLexeme(op)] + Print(right, [RPAREN] + rest)), e, rest);
    case FunctionCall(name, arguments) =>
      CallStep(name, PrintList(arguments, [RPAREN] + rest));
      ArgumentsParse(arguments, RPAREN, "Expected ')' after function arguments", rest);
    case Vector(elements) =>
      VectorStep(PrintList(elements, [RBRACKET] + rest));
      ArgumentsParse(elements, RBRACKET, "Expected ']' after vector elements", rest);
  }

  /** The inside of a parenthesised binary node, up to the closing parenthesis. */
  lemma {:induction false} GroupParses(e: Expr, close: seq<Lexeme>)
    requires e.Binary? && Fits(e, Operand) && Kind(close).RightParen?
    ensures ParseExpression(Print(e.left, [OperatorLexeme(e.bop)] + Print(e.right, close))) == Ok(e, close)
    decreases e, 0
  {
    hide ParseChain, ParseComparison;
    var tail := [OperatorLexeme(e.bop)] + Print(e.right, close);
    OperatorStep(e.bop, Print(e.right, close));
    LevelParses(e.left, LeftSlot(e.bop), LevelOf(e.bop) - 1, tail);
    LevelParses(e.right, RightSlot(e.bop), LevelOf(e.bop) - 1, close);
    BinaryStep(e.bop, e.left, e.right, Print(e.left, tail), tail, close);
    Climb(LevelOf(e.bop), OR_LEVEL, Print(e.left, tail));
    StartsPrinted(e.left, tail);
  }

  lemma {:induction false} ArgumentsParse(es: seq<Expr>, close: Lexeme, message: string, rest: seq<Lexeme>)
    requires forall a | a in es :: Fits(a, Free)
    requires close.kind.RightParen? || close.kind.RightBracket?
    ensures ParseArguments(PrintList(es, [close] + rest), close.kind, message) == Ok(es, rest)
    decreases es, 6
  {
    Next(close, rest);
    if es != [] {
      ListParses(es, [close] + rest);
      StartsPrinted(es[0], if |es| == 1 then [close] + rest else [COMMA] + PrintList(es[1..], [close] + rest));
    }
  }

  lemma {:induction false} ListParses(es: seq<Expr>, rest: seq<Lexeme>)
    requires es != [] && forall a | a in es :: Fits(a, Free)
    requires Ends(Free, Kind(rest)) && Kind(rest) != Comma
    ensures ParseList(PrintList(es, rest)) == Ok(es, rest)
    decreases es, 5
  {
    hide ParseExpression, Fits;
    if |es| == 1 {
      FreeParses(es[0], rest);
      assert es == [es[0]];
    } else {
      var more := PrintList(es[1..], rest);
      Next(COMMA, more);
      FreeParses(es[0], [COMMA] + more);
      ListParses(es[1..], rest);
      assert es == [es[0]] + es[1..];
    }
  }

  lemma {:induction false} StartsPrinted(e: Expr, rest: seq<Lexeme>)
    ensures StartsExpression(Kind(Print(e, rest)))
  {
    match e
    case InExpr(left, values, isNot) =>
      StartsPrinted(left, Negation(isNot, [IN] + ([LPAREN] + PrintList(values, [RPAREN] + rest))));
    case BetweenExpr(left, start, end, isNot) =>
      StartsPrinted(left, Negation(isNot, [Lexeme(Between, "BETWEEN")] +
        Print(start, [Lexeme(And, "AND")] + Print(end, rest))));
    case LikeExpr(left, pattern, isNot) =>
      StartsPrinted(left, Negation(isNot, [Lexeme(Like, "LIKE")] + Print(pattern, rest)));
    case _ =>
  }
}
