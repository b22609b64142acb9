/** Bound statements, the operator trees planned for them, and which tree belongs to which statement. */
module Plans {
  import Ast
  import opened Wrappers
  import opened IndexKey

  datatype BoundUnary = NOT | MINUS | PLUS

  datatype BoundBinary =
    | ADD | SUBTRACT | MULTIPLY | DIVIDE | MODULO
    | EQUAL | NOT_EQUAL | LESS | GREATER | LESS_EQUAL | GREATER_EQUAL
    | AND | OR

  datatype Expression =
    | Column(columnId: nat)
    | Constant(value: FieldValue)
    | Unary(uop: BoundUnary, operand: Expression)
    | Binary(bop: BoundBinary, left: Expression, right: Expression)
    | Call(name: string, isAggregate: bool, arguments: seq<Expression>)
    | InList(left: Expression, values: seq<Expression>, isNot: bool)
    | Between(left: Expression, start: Expression, end: Expression, isNot: bool)
    | Like(left: Expression, pattern: Expression, isNot: bool)

  datatype SelectItem = SelectItem(expression: Expression, alias: string)

  datatype Direction = ASC | DESC

  datatype OrderItem = OrderItem(expression: Expression, direction: Direction)

  datatype UpdateItem = UpdateItem(columnReference: Expression, value: Expression)

  datatype Statement =
    | Select(collectionId: nat, items: seq<SelectItem>, where_: Option<Expression>, groupBy: seq<Expression>,
             having: Option<Expression>, orderBy: seq<OrderItem>, limit: Option<nat>, offset: Option<nat>)
    | Delete(collectionId: nat, where_: Option<Expression>)
    | Update(collectionId: nat, updates: seq<UpdateItem>, where_: Option<Expression>)
    | Unplanned(statementType: nat)

  datatype ProjectItem = ProjectItem(expression: Expression, alias: Option<string>)

  datatype Assignment = Assignment(columnId: nat, value: Expression)

  datatype Operator =
    | Scan(collectionId: nat, columns: seq<nat>)
    | Filter(condition: Expression, child: Operator)
    | Project(projections: seq<ProjectItem>, child: Operator)
    | Aggregate(groups: seq<Expression>, projections: seq<ProjectItem>, child: Operator)
    | Sort(order: seq<OrderItem>, child: Operator)
    | LimitOffset(limit: Option<nat>, offset: Option<nat>, child: Operator)
    | DeleteRows(collectionId: nat, child: Operator)
    | UpdateRows(collectionId: nat, assignments: seq<Assignment>, child: Operator)

  // The columns an expression refers to.

  /** In the order of a walk over the expression, with repetitions. */
  function Walk(e: Expression): seq<nat>
    decreases e
  {
    match e
    case Column(columnId) => [columnId]
    case Constant(_) => []
    case Unary(_, operand) => Walk(operand)
    case Binary(_, left, right) => Walk(left) + Walk(right)
    case Call(_, _, arguments) => WalkAll(arguments)
    case InList(left, values, _) => Walk(left) + WalkAll(values)
    case Between(left, start, end, _) => Walk(left) + Walk(start) + Walk(end)
    case Like(left, pattern, _) => Walk(left) + Walk(pattern)
  }

  function WalkAll(es: seq<Expression>): seq<nat>
    decreases es
  {
    if es == [] then [] else Walk(es[0]) + WalkAll(es[1..])
  }

  /** An expression refers to a column: it is that column, or one of its parts refers to it. */
  ghost predicate RefersTo(e: Expression, columnId: nat)
    decreases e
  {
    match e
    case Column(id) => id == columnId
    case Constant(_) => false
    case Unary(_, operand) => RefersTo(operand, columnId)
    case Binary(_, left, right) => RefersTo(left, columnId) || RefersTo(right, columnId)
    case Call(_, _, arguments) => exists a :: a in arguments && RefersTo(a, columnId)
    case InList(left, values, _) => RefersTo(left, columnId) || exists a :: a in values && RefersTo(a, columnId)
    case Between(left, start, end, _) =>
      RefersTo(left, columnId) || RefersTo(start, columnId) || RefersTo(end, columnId)
    case Like(left, pattern, _) => RefersTo(left, columnId) || RefersTo(pattern, columnId)
  }

  lemma {:induction false} WalkFinds(e: Expression, columnId: nat)
    ensures columnId in Walk(e) <==> RefersTo(e, columnId)
    decreases e
  {
    match e
    case Unary(_, operand) => WalkFinds(operand, columnId);
    case Binary(_, left, right) =>
      WalkFinds(left, columnId);
      WalkFinds(right, columnId);
    case Call(_, _, arguments) => WalkAllFinds(arguments, columnId);
    case InList(left, values, _) =>
      WalkFinds(left, columnId);
      WalkAllFinds(values, columnId);
    case Between(left, start, end, _) =>
      WalkFinds(left, columnId);
      WalkFinds(start, columnId);
      WalkFinds(end, columnId);
    case Like(left, pattern, _) =>
      WalkFinds(left, columnId);
      WalkFinds(pattern, columnId);
    case _ =>
  }

  lemma {:induction false} WalkAllFinds(es: seq<Expression>, columnId: nat)
    ensures columnId in WalkAll(es) <==> exists a :: a in es && RefersTo(a, columnId)
    decreases es
  {
    if es != [] {
      WalkFinds(es[0], columnId);
      WalkAllFinds(es[1..], columnId);
      assert es == [es[0]] + es[1..];
    }
  }

  function Elements(s: seq<nat>): set<nat> {
    set x | x in s
  }

  function ColumnsOf(e: Expression): set<nat> {
    Elements(Walk(e))
  }

  function ColumnsOfAll(es: seq<Expression>): set<nat> {
    Elements(WalkAll(es))
  }

  function ColumnsOfOption(e: Option<Expression>): set<nat> {
    if e.Some? then ColumnsOf(e.value) else {}
  }

  /** A column list: the members of a set in ascending order. */
  ghost predicate Lists(columns: seq<nat>, members: set<nat>) {
    Elements(columns) == members && forall i, j | 0 <= i < j < |columns| :: columns[i] < columns[j]
  }

  /** There is only one such list. */
  lemma {:induction false} ListsOnce(a: seq<nat>, b: seq<nat>, members: set<nat>)
    requires Lists(a, members) && Lists(b, members)
    ensures a == b
    decreases |a|
  {
    EmptyLists(a, members);
    EmptyLists(b, members);
    if a != [] {
      FirstIsLeast(a, members);
      FirstIsLeast(b, members);
      RestLists(a, members);
      RestLists(b, members);
      ListsOnce(a[1..], b[1..], members - {a[0]});
      assert a == [a[0]] + a[1..] && b == [b[0]] + b[1..];
    }
  }

  lemma EmptyLists(a: seq<nat>, members: set<nat>)
    requires Lists(a, members)
    ensures a == [] <==> members == {}
  {
    if a != [] {
      assert a[0] in Elements(a);
    }
  }

  lemma FirstIsLeast(a: seq<nat>, members: set<nat>)
    requires Lists(a, members) && a != []
    ensures a[0] in members && forall x | x in members :: a[0] <= x
  {
    forall x | x in members
      ensures a[0] <= x
    {
      assert x in Elements(a);
      var i :| 0 <= i < |a| && a[i] == x;
    }
  }

  lemma RestLists(a: seq<nat>, members: set<nat>)
    requires Lists(a, members) && a != []
    ensures Lists(a[1..], members - {a[0]})
  {
    forall x
      ensures x in Elements(a[1..]) <==> x in members - {a[0]}
    {
      assert a == [a[0]] + a[1..];
      assert x in members <==> x in Elements(a);
      if x in a[1..] {
        var i :| 0 <= i < |a[1..]| && a[1..][i] == x;
        assert a[0] < a[i + 1];
      }
    }
  }

  // The tree for a statement, from the leaf upwards.

  predicate IsAggregate(item: SelectItem) {
    item.expression.Call? && item.expression.isAggregate
  }

  predicate Aggregates(s: Statement)
    requires s.Select?
  {
    s.groupBy != [] || exists i :: 0 <= i < |s.items| && IsAggregate(s.items[i])
  }

  function Projection(item: SelectItem): ProjectItem {
    ProjectItem(item.expression, if item.alias == "" then None else Some(item.alias))
  }

  function Projections(items: seq<SelectItem>): (ps: seq<ProjectItem>)
    ensures |ps| == |items|
  {
    seq(|items|, i requires 0 <= i < |items| => Projection(items[i]))
  }

  function ItemExpressions(items: seq<SelectItem>): seq<Expression> {
    seq(|items|, i requires 0 <= i < |items| => items[i].expression)
  }

  function OrderExpressions(items: seq<OrderItem>): seq<Expression> {
    seq(|items|, i requires 0 <= i < |items| => items[i].expression)
  }

  function Filtered(condition: Option<Expression>, child: Operator): Operator {
    if condition.Some? then Filter(condition.value, child) else child
  }

  function Limited(limit: Option<nat>, offset: Option<nat>, child: Operator): Operator {
    if limit.Some? || offset.Some? then LimitOffset(limit, offset, child) else child
  }

  /** Everything a SELECT mentions. */
  function SelectColumns(s: Statement): set<nat>
    requires s.Select?
  {
    ColumnsOfAll(ItemExpressions(s.items)) + ColumnsOfOption(s.where_) + ColumnsOfAll(s.groupBy)
    + ColumnsOfOption(s.having) + ColumnsOfAll(OrderExpressions(s.orderBy))
  }

  /** Scan, WHERE, grouping, HAVING, projection unless grouped, ORDER BY, then OFFSET and LIMIT. */
  function SelectTree(s: Statement, columns: seq<nat>): Operator
    requires s.Select?
  {
    var filtered := Filtered(s.where_, Scan(s.collectionId, columns));
    var grouped := if Aggregates(s) then Aggregate(s.groupBy, Projections(s.items), filtered) else filtered;
    var having := Filtered(s.having, grouped);
    var projected := if Aggregates(s) then having else Project(Projections(s.items), having);
    var sorted := if s.orderBy != [] then Sort(s.orderBy, projected) else projected;
    Limited(s.limit, s.offset, sorted)
  }

  function DeleteTree(s: Statement, columns: seq<nat>): Operator
    requires s.Delete?
  {
    DeleteRows(s.collectionId, Filtered(s.where_, Scan(s.collectionId, columns)))
  }

  predicate TargetsColumns(updates: seq<UpdateItem>) {
    forall i | 0 <= i < |updates| :: updates[i].columnReference.Column?
  }

  function Assignments(updates: seq<UpdateItem>): (as_: seq<Assignment>)
    requires TargetsColumns(updates)
    ensures |as_| == |updates|
  {
    seq(|updates|, i requires 0 <= i < |updates| => Assignment(updates[i].columnReference.columnId, updates[i].value))
  }

  /** What an UPDATE reads and what it writes. */
  function UpdateColumns(s: Statement): set<nat>
    requires s.Update? && TargetsColumns(s.updates)
  {
    ColumnsOfOption(s.where_) + UpdateItemColumns(s.updates)
  }

  function UpdateItemColumns(updates: seq<UpdateItem>): set<nat>
    requires TargetsColumns(updates)
  {
    if updates == [] then {}
    else
      var rest := updates[..|updates| - 1];
      var last := updates[|updates| - 1];
      UpdateItemColumns(rest) + {last.columnReference.columnId} + ColumnsOf(last.value)
  }

  function UpdateTree(s: Statement, columns: seq<nat>): Operator
    requires s.Update? && TargetsColumns(s.updates)
  {
    UpdateRows(s.collectionId, Assignments(s.updates), Filtered(s.where_, Scan(s.collectionId, columns)))
  }

  // Plans.

  datatype Planned = Plan(root: Operator) | Throw(message: string)

  const BAD_TARGET := "UPDATE item column_reference must be a BoundColumnReferenceExpression"
  const UNSUPPORTED := "Unsupported bound statement type: "

  /** The plan of a statement: the tree above, over the ascending list of exactly the columns it mentions. */
  ghost predicate IsPlan(s: Statement, p: Planned) {
    match s
    case Select(_, _, _, _, _, _, _, _) =>
      exists columns :: Lists(columns, SelectColumns(s)) && p == Plan(SelectTree(s, columns))
    case Delete(_, _) =>
      exists columns :: Lists(columns, ColumnsOfOption(s.where_)) && p == Plan(DeleteTree(s, columns))
    case Update(_, _, _) =>
      if TargetsColumns(s.updates) then
        exists columns :: Lists(columns, UpdateColumns(s)) && p == Plan(UpdateTree(s, columns))
      else p == Planned.Throw(BAD_TARGET)
    case Unplanned(statementType) => p == Planned.Throw(UNSUPPORTED + Ast.Decimal(statementType))
  }

  /** So it is unique. */
  lemma PlanIsUnique(s: Statement, p: Planned, q: Planned)
    requires IsPlan(s, p) && IsPlan(s, q)
    ensures p == q
  {
    hide Lists, SelectTree, DeleteTree, UpdateTree, SelectColumns, UpdateColumns;
    match s
    case Select(_, _, _, _, _, _, _, _) =>
      var a :| Lists(a, SelectColumns(s)) && p == Plan(SelectTree(s, a));
      var b :| Lists(b, SelectColumns(s)) && q == Plan(SelectTree(s, b));
      ListsOnce(a, b, SelectColumns(s));
    case Delete(_, _) =>
      var a :| Lists(a, ColumnsOfOption(s.where_)) && p == Plan(DeleteTree(s, a));
      var b :| Lists(b, ColumnsOfOption(s.where_)) && q == Plan(DeleteTree(s, b));
      ListsOnce(a, b, ColumnsOfOption(s.where_));
    case Update(_, _, _) =>
      if TargetsColumns(s.updates) {
        var a :| Lists(a, UpdateColumns(s)) && p == Plan(UpdateTree(s, a));
        var b :| Lists(b, UpdateColumns(s)) && q == Plan(UpdateTree(s, b));
        ListsOnce(a, b, UpdateColumns(s));
      }
    case Unplanned(_) =>
  }
}
