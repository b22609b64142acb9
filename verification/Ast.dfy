/** Syntax trees of expressions and of the SELECT, INSERT, UPDATE and DELETE statements. */
module Ast {
  import opened Wrappers
  import opened Tokens

  datatype UnaryOp = UnaryNot | UnaryMinus | UnaryPlus

  datatype BinaryOp =
    | OpPlus | OpMinus | OpMultiply | OpDivide | OpModulo
    | OpEqual | OpNotEqual | OpLessThan | OpGreaterThan | OpLessEqual | OpGreaterEqual
    | OpAnd | OpOr

  datatype Expr =
    | IntLit(n: int)
    | FloatLit(text: string)
    | StringLit(s: string)
    | BoolLit(b: bool)
    | NullLit
    | ColumnRef(database: Option<string>, collection: Option<string>, column: string)
    | Unary(uop: UnaryOp, operand: Expr)
    | Binary(bop: BinaryOp, left: Expr, right: Expr)
    | FunctionCall(name: string, arguments: seq<Expr>)
    | Vector(elements: seq<Expr>)
    | InExpr(left: Expr, values: seq<Expr>, isNot: bool)
    | BetweenExpr(left: Expr, start: Expr, end: Expr, isNot: bool)
    | LikeExpr(left: Expr, pattern: Expr, isNot: bool)

  datatype SelectItem =
    | StarItem
    | ExprItem(expression: Expr, alias: Option<string>)

  datatype Direction = ASC | DESC

  datatype OrderByItem = OrderByItem(expression: Expr, direction: Direction)

  datatype Assignment = Assignment(column: string, value: Expr)

  datatype Statement =
    | SelectStmt(collection: string, items: seq<SelectItem>, where_: Option<Expr>, groupBy: seq<Expr>,
                 having: Option<Expr>, orderBy: seq<OrderByItem>, limit: Option<nat>, offset: Option<nat>)
    | InsertStmt(collection: string, columns: seq<string>, values: seq<Expr>)
    | UpdateStmt(collection: string, assignments: seq<Assignment>, where_: Option<Expr>)
    | DeleteStmt(collection: string, where_: Option<Expr>)

  const MAX_INT64 := 0x7FFF_FFFF_FFFF_FFFF
  const MAX_UINT64 := 0xFFFF_FFFF_FFFF_FFFF

  // Decimal numerals, as an output stream prints them and stoll/stoull read them.

  function Digit(d: nat): char
    requires d < 10
  {
    '0' + d as char
  }

  function Decimal(n: nat): string {
    (if n < 10 then [] else Decimal(n / 10)) + [Digit(n % 10)]
  }

  predicate AllDigits(s: string) {
    forall i | 0 <= i < |s| :: IsDigit(s[i])
  }

  function DigitsValue(s: string): nat
    requires AllDigits(s)
  {
    if s == [] then 0 else 10 * DigitsValue(s[..|s| - 1]) + (s[|s| - 1] as int - '0' as int)
  }

  /** Reading a numeral: fails on an empty or non-numeric text and above the target type's maximum. */
  function ReadNumber(s: string, max: nat): Option<nat> {
    if s != [] && AllDigits(s) && DigitsValue(s) <= max then Some(DigitsValue(s)) else None
  }

  lemma {:induction false} DecimalReadsBack(n: nat)
    ensures AllDigits(Decimal(n)) && Decimal(n) != [] && DigitsValue(Decimal(n)) == n
  {
    var prefix := if n < 10 then [] else Decimal(n / 10);
    if n >= 10 {
      DecimalReadsBack(n / 10);
    }
    assert Decimal(n)[..|Decimal(n)| - 1] == prefix;
  }
}
