/**
 * What plans mean, and that planning keeps the meaning of the statement.  The operators of expressions are
 * left open: any functions will do.
 */
module PlanMeaning {
  import opened Wrappers
  import opened IndexKey
  import opened Plans

  type Result = Option<FieldValue>

  datatype Operations = Operations(
    unary: (BoundUnary, Result) -> Result,
    binary: (BoundBinary, Result, Result) -> Result,
    call: (string, seq<Result>) -> Result,
    inList: (Result, seq<Result>, bool) -> Result,
    between: (Result, Result, Result, bool) -> Result,
    like: (Result, Result, bool) -> Result,
    isTrue: FieldValue -> bool)

  type Fields = map<nat, FieldValue>

  /** An expression's value over the fields of a row; none if it cannot be evaluated. */
  function Evaluate(ops: Operations, e: Expression, fields: Fields): Result
    decreases e
  {
    match e
    case Column(columnId) => if columnId in fields then Some(fields[columnId]) else None
    case Constant(value) => Some(value)
    case Unary(op, operand) => ops.unary(op, Evaluate(ops, operand, fields))
    case Binary(op, left, right) => ops.binary(op, Evaluate(ops, left, fields), Evaluate(ops, right, fields))
    case Call(name, _, arguments) => ops.call(name, EvaluateAll(ops, arguments, fields))
    case InList(left, values, isNot) =>
      ops.inList(Evaluate(ops, left, fields), EvaluateAll(ops, values, fields), isNot)
    case Between(left, start, end, isNot) =>
      ops.between(Evaluate(ops, left, fields), Evaluate(ops, start, fields), Evaluate(ops, end, fields), isNot)
    case Like(left, pattern, isNot) => ops.like(Evaluate(ops, left, fields), Evaluate(ops, pattern, fields), isNot)
  }

  function EvaluateAll(ops: Operations, es: seq<Expression>, fields: Fields): seq<Result>
    decreases es
  {
    if es == [] then [] else [Evaluate(ops, es[0], fields)] + EvaluateAll(ops, es[1..], fields)
  }

  /** Two rows have the same values, or lack of values, in some columns. */
  ghost predicate Coincide(f: Fields, g: Fields, columns: set<nat>) {
    forall c | c in columns :: (c in f <==> c in g) && (c in f ==> f[c] == g[c])
  }

  lemma CoincideLess(f: Fields, g: Fields, columns: set<nat>, fewer: set<nat>)
    requires Coincide(f, g, columns) && fewer <= columns
    ensures Coincide(f, g, fewer)
  {
  }

  /** An expression's value depends only on the columns collected from it. */
  lemma {:induction false} ValueDependsOnColumns(ops: Operations, e: Expression, f: Fields, g: Fields)
    requires Coincide(f, g, ColumnsOf(e))
    ensures Evaluate(ops, e, f) == Evaluate(ops, e, g)
    decreases e
  {
    hide Coincide;
    match e
    case Column(columnId) => ColumnCoincides(f, g, columnId);
    case Constant(_) =>
    case Unary(_, operand) => ValueDependsOnColumns(ops, operand, f, g);
    case Binary(_, left, right) =>
      CoincideLess(f, g, ColumnsOf(e), ColumnsOf(left));
      CoincideLess(f, g, ColumnsOf(e), ColumnsOf(right));
      ValueDependsOnColumns(ops, left, f, g);
      ValueDependsOnColumns(ops, right, f, g);
    case Call(_, _, arguments) => ValuesDependOnColumns(ops, arguments, f, g);
    case InList(left, values, _) =>
      CoincideLess(f, g, ColumnsOf(e), ColumnsOf(left));
      CoincideLess(f, g, ColumnsOf(e), ColumnsOfAll(values));
      ValueDependsOnColumns(ops, left, f, g);
      ValuesDependOnColumns(ops, values, f, g);
    case Between(left, start, end, _) =>
      CoincideLess(f, g, ColumnsOf(e), ColumnsOf(left));
      CoincideLess(f, g, ColumnsOf(e), ColumnsOf(start));
      CoincideLess(f, g, ColumnsOf(e), ColumnsOf(end));
      ValueDependsOnColumns(ops, left, f, g);
      ValueDependsOnColumns(ops, start, f, g);
      ValueDependsOnColumns(ops, end, f, g);
    case Like(left, pattern, _) =>
      CoincideLess(f, g, ColumnsOf(e), ColumnsOf(left));
      CoincideLess(f, g, ColumnsOf(e), ColumnsOf(pattern));
      ValueDependsOnColumns(ops, left, f, g);
      ValueDependsOnColumns(ops, pattern, f, g);
  }

  lemma ColumnCoincides(f: Fields, g: Fields, columnId: nat)
    requires Coincide(f, g, ColumnsOf(Column(columnId)))
    ensures (columnId in f <==> columnId in g) && (columnId in f ==> f[columnId] == g[columnId])
  {
    assert columnId in ColumnsOf(Column(columnId));
  }

  lemma {:induction false} ValuesDependOnColumns(ops: Operations, es: seq<Expression>, f: Fields, g: Fields)
    requires Coincide(f, g, ColumnsOfAll(es))
    ensures EvaluateAll(ops, es, f) == EvaluateAll(ops, es, g)
    decreases es
  {
    hide Coincide;
    if es != [] {
      CoincideLess(f, g, ColumnsOfAll(es), ColumnsOf(es[0]));
      CoincideLess(f, g, ColumnsOfAll(es), ColumnsOfAll(es[1..]));
      ValueDependsOnColumns(ops, es[0], f, g);
      ValuesDependOnColumns(ops, es[1..], f, g);
    }
  }

  // Rows.

  datatype Row = Row(id: nat, fields: Fields)

  /** What a scan reads of a row; an empty column list stands for all columns. */
  function Cut(fields: Fields, columns: seq<nat>): Fields {
    if columns == [] then fields else map c | c in fields && c in columns :: fields[c]
  }

  function CutAll(rows: seq<Row>, columns: seq<nat>): (cut: seq<Row>)
    ensures |cut| == |rows|
  {
    seq(|rows|, i requires 0 <= i < |rows| => Row(rows[i].id, Cut(rows[i].fields, columns)))
  }

  predicate Satisfies(ops: Operations, condition: Expression, fields: Fields) {
    var value := Evaluate(ops, condition, fields);
    value.Some? && ops.isTrue(value.value)
  }

  function FilterRows(ops: Operations, condition: Expression, rows: seq<Row>): seq<Row> {
    if rows == [] then []
    else (if Satisfies(ops, condition, rows[0].fields) then [rows[0]] else []) + FilterRows(ops, condition, rows[1..])
  }

  /** A row of the result: the entity's id with the computed values. */
  datatype Output = Output(id: nat, values: seq<FieldValue>)

  function OrNull(value: Result): FieldValue {
    if value.Some? then value.value else Null
  }

  function ProjectRow(ops: Operations, projections: seq<ProjectItem>, row: Row): Output {
    Output(row.id, seq(|projections|, i requires 0 <= i < |projections| =>
      OrNull(Evaluate(ops, projections[i].expression, row.fields))))
  }

  function ProjectRows(ops: Operations, projections: seq<ProjectItem>, rows: seq<Row>): seq<Output> {
    seq(|rows|, i requires 0 <= i < |rows| => ProjectRow(ops, projections, rows[i]))
  }

  /** First the offset, then the limit. */
  function Window<T>(rows: seq<T>, limit: Option<nat>, offset: Option<nat>): seq<T> {
    var start := if offset.Some? then offset.value else 0;
    if start >= |rows| then []
    else
      var rest := rows[start..];
      if limit.Some? && limit.value < |rest| then rest[..limit.value] else rest
  }

  // The meaning of trees without grouping and sorting.

  predicate YieldsRows(op: Operator) {
    op.Scan? || (op.Filter? && YieldsRows(op.child))
  }

  function RowsOf(ops: Operations, op: Operator, table: seq<Row>): seq<Row>
    requires YieldsRows(op)
  {
    match op
    case Scan(_, columns) => CutAll(table, columns)
    case Filter(condition, child) => FilterRows(ops, condition, RowsOf(ops, child, table))
  }

  predicate YieldsOutputs(op: Operator) {
    (op.Project? && YieldsRows(op.child)) || (op.LimitOffset? && YieldsOutputs(op.child))
  }

  function OutputsOf(ops: Operations, op: Operator, table: seq<Row>): seq<Output>
    requires YieldsOutputs(op)
  {
    match op
    case Project(projections, child) => ProjectRows(ops, projections, RowsOf(ops, child, table))
    case LimitOffset(limit, offset, child) => Window(OutputsOf(ops, child, table), limit, offset)
  }

  function Ids(rows: seq<Row>): seq<nat> {
    seq(|rows|, i requires 0 <= i < |rows| => rows[i].id)
  }

  /** The new values of a row, column by column. */
  function AssignRow(ops: Operations, assignments: seq<Assignment>, row: Row): (nat, seq<(nat, Result)>) {
    (row.id, seq(|assignments|, i requires 0 <= i < |assignments| =>
      (assignments[i].columnId, Evaluate(ops, assignments[i].value, row.fields))))
  }

  function AssignRows(ops: Operations, assignments: seq<Assignment>, rows: seq<Row>): seq<(nat, seq<(nat, Result)>)> {
    seq(|rows|, i requires 0 <= i < |rows| => AssignRow(ops, assignments, rows[i]))
  }

  // What statements ask for, on whole rows.

  /** The rows that satisfy both conditions. */
  function Wanted(ops: Operations, where_: Option<Expression>, having: Option<Expression>, table: seq<Row>): seq<Row> {
    if table == [] then []
    else
      var fields := table[0].fields;
      (if && (where_.Some? ==> Satisfies(ops, where_.value, fields))
          && (having.Some? ==> Satisfies(ops, having.value, fields))
       then [table[0]] else [])
      + Wanted(ops, where_, having, table[1..])
  }

  /** From position offset on, at most limit many. */
  function Page<T>(rows: seq<T>, limit: Option<nat>, offset: Option<nat>): seq<T> {
    var from := if offset.None? then 0 else if offset.value < |rows| then offset.value else |rows|;
    var to := if limit.None? || from + limit.value > |rows| then |rows| else from + limit.value;
    rows[from..to]
  }

  /** The values of the select list, item by item. */
  function ItemValues(ops: Operations, items: seq<SelectItem>, row: Row): Output {
    Output(row.id, seq(|items|, i requires 0 <= i < |items| => OrNull(Evaluate(ops, items[i].expression, row.fields))))
  }

  function SelectAnswer(ops: Operations, s: Statement, table: seq<Row>): seq<Output>
    requires s.Select?
  {
    var kept := Wanted(ops, s.where_, s.having, table);
    Page(seq(|kept|, i requires 0 <= i < |kept| => ItemValues(ops, s.items, kept[i])), s.limit, s.offset)
  }

  /** The new values of a row, item by item. */
  function NewValues(ops: Operations, updates: seq<UpdateItem>, row: Row): (nat, seq<(nat, Result)>)
    requires TargetsColumns(updates)
  {
    (row.id, seq(|updates|, i requires 0 <= i < |updates| =>
      (updates[i].columnReference.columnId, Evaluate(ops, updates[i].value, row.fields))))
  }

  function UpdateAnswer(ops: Operations, s: Statement, table: seq<Row>): seq<(nat, seq<(nat, Result)>)>
    requires s.Update? && TargetsColumns(s.updates)
  {
    var kept := Wanted(ops, s.where_, None, table);
    seq(|kept|, i requires 0 <= i < |kept| => NewValues(ops, s.updates, kept[i]))
  }

  // Pruning.

  lemma CutCoincides(fields: Fields, columns: seq<nat>, needed: set<nat>)
    requires needed <= Elements(columns)
    ensures Coincide(fields, Cut(fields, columns), needed)
  {
  }

  lemma CutKeepsValue(ops: Operations, e: Expression, fields: Fields, columns: seq<nat>)
    requires ColumnsOf(e) <= Elements(columns)
    ensures Evaluate(ops, e, Cut(fields, columns)) == Evaluate(ops, e, fields)
  {
    hide Evaluate, Cut, Coincide, ColumnsOf;
    CutCoincides(fields, columns, ColumnsOf(e));
    ValueDependsOnColumns(ops, e, fields, Cut(fields, columns));
  }

  /** Filtering and cutting commute when the condition's columns are kept. */
  lemma {:induction false} FilterCut(ops: Operations, condition: Expression, rows: seq<Row>, columns: seq<nat>)
    requires ColumnsOf(condition) <= Elements(columns)
    ensures FilterRows(ops, condition, CutAll(rows, columns)) == CutAll(FilterRows(ops, condition, rows), columns)
    decreases rows
  {
    hide Evaluate, Cut, ColumnsOf, Elements;
    if rows != [] {
      var rest := rows[1..];
      CutKeepsValue(ops, condition, rows[0].fields, columns);
      FilterCut(ops, condition, rest, columns);
      var head := Row(rows[0].id, Cut(rows[0].fields, columns));
      assert CutAll(rows, columns)[0] == head && CutAll(rows, columns)[1..] == CutAll(rest, columns);
      assert CutAll([rows[0]] + FilterRows(ops, condition, rest), columns)
          == [head] + CutAll(FilterRows(ops, condition, rest), columns);
    }
  }

  lemma FilterFirst(ops: Operations, condition: Expression, row: Row, rest: seq<Row>)
    ensures FilterRows(ops, condition, [row] + rest)
         == if Satisfies(ops, condition, row.fields) then [row] + FilterRows(ops, condition, rest)
            else FilterRows(ops, condition, rest)
  {
    hide Satisfies;
    assert ([row] + rest)[1..] == rest;
  }

  /** What WHERE leaves, where there is one. */
  function Once(ops: Operations, where_: Option<Expression>, table: seq<Row>): seq<Row> {
    if where_.Some? then FilterRows(ops, where_.value, table) else table
  }

  lemma OnceFirst(ops: Operations, where_: Option<Expression>, row: Row, rest: seq<Row>)
    ensures Once(ops, where_, [row] + rest)
         == if where_.Some? ==> Satisfies(ops, where_.value, row.fields) then [row] + Once(ops, where_, rest)
            else Once(ops, where_, rest)
  {
    hide FilterRows, Satisfies;
    if where_.Some? {
      FilterFirst(ops, where_.value, row, rest);
    }
  }

  lemma {:induction false} FilterTwice(
    ops: Operations, where_: Option<Expression>, having: Option<Expression>, table: seq<Row>)
    ensures Wanted(ops, where_, having, table) == Once(ops, having, Once(ops, where_, table))
    decreases table
  {
    hide Satisfies, Once;
    if table == [] {
      NothingOnce(ops, where_);
      NothingOnce(ops, having);
    } else {
      var row, rest := table[0], table[1..];
      assert table == [row] + rest;
      FilterTwice(ops, where_, having, rest);
      OnceFirst(ops, where_, row, rest);
      OnceFirst(ops, having, row, Once(ops, where_, rest));
    }
  }

  lemma NothingOnce(ops: Operations, where_: Option<Expression>)
    ensures Once(ops, where_, []) == []
  {
  }

  lemma ProjectCut(ops: Operations, projections: seq<ProjectItem>, rows: seq<Row>, columns: seq<nat>)
    requires forall i | 0 <= i < |projections| :: ColumnsOf(projections[i].expression) <= Elements(columns)
    ensures ProjectRows(ops, projections, CutAll(rows, columns)) == ProjectRows(ops, projections, rows)
  {
    hide Evaluate, Cut, ColumnsOf, Elements;
    forall i, j | 0 <= i < |rows| && 0 <= j < |projections|
      ensures Evaluate(ops, projections[j].expression, Cut(rows[i].fields, columns))
           == Evaluate(ops, projections[j].expression, rows[i].fields)
    {
      CutKeepsValue(ops, projections[j].expression, rows[i].fields, columns);
    }
    forall i | 0 <= i < |rows|
      ensures ProjectRow(ops, projections, CutAll(rows, columns)[i]) == ProjectRow(ops, projections, rows[i])
    {
    }
  }

  lemma AssignCut(ops: Operations, assignments: seq<Assignment>, rows: seq<Row>, columns: seq<nat>)
    requires forall i | 0 <= i < |assignments| :: ColumnsOf(assignments[i].value) <= Elements(columns)
    ensures AssignRows(ops, assignments, CutAll(rows, columns)) == AssignRows(ops, assignments, rows)
  {
    hide Evaluate, Cut, ColumnsOf, Elements;
    forall i, j | 0 <= i < |rows| && 0 <= j < |assignments|
      ensures Evaluate(ops, assignments[j].value, Cut(rows[i].fields, columns))
           == Evaluate(ops, assignments[j].value, rows[i].fields)
    {
      CutKeepsValue(ops, assignments[j].value, rows[i].fields, columns);
    }
    forall i | 0 <= i < |rows|
      ensures AssignRow(ops, assignments, CutAll(rows, columns)[i]) == AssignRow(ops, assignments, rows[i])
    {
      var cut, whole := AssignRow(ops, assignments, CutAll(rows, columns)[i]), AssignRow(ops, assignments, rows[i]);
      assert cut.1 == whole.1;
    }
  }

  lemma WindowIsPage<T>(rows: seq<T>, limit: Option<nat>, offset: Option<nat>)
    ensures Window(rows, limit, offset) == Page(rows, limit, offset)
  {
    var start := if offset.Some? then offset.value else 0;
    if start >= |rows| {
      assert rows[|rows|..|rows|] == [];
    } else if limit.Some? && start + limit.value < |rows| {
      assert rows[start..][..limit.value] == rows[start..start + limit.value];
    } else {
      assert rows[start..] == rows[start..|rows|];
    }
  }

  lemma {:induction false} PartsCovered(es: seq<Expression>, columns: set<nat>)
    requires ColumnsOfAll(es) <= columns
    ensures forall i | 0 <= i < |es| :: ColumnsOf(es[i]) <= columns
    decreases es
  {
    if es != [] {
      assert ColumnsOfAll(es) == ColumnsOf(es[0]) + ColumnsOfAll(es[1..]);
      PartsCovered(es[1..], columns);
      forall i | 0 <= i < |es|
        ensures ColumnsOf(es[i]) <= columns
      {
        if i > 0 {
          assert es[i] == es[1..][i - 1];
        }
      }
    }
  }

  /** The filters of a statement over the pruned scan keep the rows that both conditions want. */
  lemma FiltersKeep(ops: Operations, collectionId: nat, where_: Option<Expression>, having: Option<Expression>,
                    columns: seq<nat>, table: seq<Row>)
    requires ColumnsOfOption(where_) <= Elements(columns) && ColumnsOfOption(having) <= Elements(columns)
    ensures var op := Filtered(having, Filtered(where_, Scan(collectionId, columns)));
            YieldsRows(op) && RowsOf(ops, op, table) == CutAll(Wanted(ops, where_, having, table), columns)
  {
    hide Evaluate, Cut, ColumnsOf, Elements, CutAll, FilterRows, Wanted;
    var once := if where_.Some? then FilterRows(ops, where_.value, table) else table;
    if where_.Some? {
      FilterCut(ops, where_.value, table, columns);
    }
    if having.Some? {
      FilterCut(ops, having.value, once, columns);
    }
    FilterTwice(ops, where_, having, table);
    var scan := Scan(collectionId, columns);
    assert YieldsRows(scan) && RowsOf(ops, scan, table) == CutAll(table, columns);
    var op := Filtered(where_, scan);
    assert YieldsRows(op) && RowsOf(ops, op, table) == CutAll(once, columns);
  }

  // Planning keeps the meaning.

  /** Projecting gives the values of the select list. */
  lemma ProjectionsShowItems(ops: Operations, items: seq<SelectItem>, rows: seq<Row>)
    ensures ProjectRows(ops, Projections(items), rows)
         == seq(|rows|, i requires 0 <= i < |rows| => ItemValues(ops, items, rows[i]))
  {
    hide Evaluate;
    forall i | 0 <= i < |rows|
      ensures ProjectRow(ops, Projections(items), rows[i]) == ItemValues(ops, items, rows[i])
    {
      assert ProjectRow(ops, Projections(items), rows[i]).values == ItemValues(ops, items, rows[i]).values;
    }
  }

  lemma AssignmentsSetItems(ops: Operations, updates: seq<UpdateItem>, rows: seq<Row>)
    requires TargetsColumns(updates)
    ensures AssignRows(ops, Assignments(updates), rows)
         == seq(|rows|, i requires 0 <= i < |rows| => NewValues(ops, updates, rows[i]))
  {
    hide Evaluate;
    forall i | 0 <= i < |rows|
      ensures AssignRow(ops, Assignments(updates), rows[i]) == NewValues(ops, updates, rows[i])
    {
      assert AssignRow(ops, Assignments(updates), rows[i]).1 == NewValues(ops, updates, rows[i]).1;
    }
  }

  /** For every SELECT without grouping and ORDER BY: the plan answers what the statement asks. */
  lemma SelectKeepsMeaning(ops: Operations, s: Statement, root: Operator, table: seq<Row>)
    requires s.Select? && !Aggregates(s) && s.orderBy == [] && IsPlan(s, Plan(root))
    ensures YieldsOutputs(root) && OutputsOf(ops, root, table) == SelectAnswer(ops, s, table)
  {
    hide Lists, SelectColumns, Wanted, RowsOf, YieldsRows, ProjectRows, CutAll, Window, Page, ItemValues;
    var columns :| Lists(columns, SelectColumns(s)) && Plan(root) == Plan(SelectTree(s, columns));
    SelectCovers(s, columns);
    FiltersKeep(ops, s.collectionId, s.where_, s.having, columns, table);
    var kept := Wanted(ops, s.where_, s.having, table);
    ProjectCut(ops, Projections(s.items), kept, columns);
    var outputs := ProjectRows(ops, Projections(s.items), kept);
    ProjectionsShowItems(ops, s.items, kept);
    WindowIsPage(outputs, s.limit, s.offset);
    if s.limit.None? && s.offset.None? {
      WholePage(outputs);
    }
  }

  lemma WholePage<T>(rows: seq<T>)
    ensures Page(rows, None, None) == rows
  {
  }

  lemma SelectCovers(s: Statement, columns: seq<nat>)
    requires s.Select? && Lists(columns, SelectColumns(s))
    ensures ColumnsOfOption(s.where_) <= Elements(columns) && ColumnsOfOption(s.having) <= Elements(columns)
    ensures forall i | 0 <= i < |s.items| :: ColumnsOf(Projections(s.items)[i].expression) <= Elements(columns)
  {
    hide ColumnsOf, ColumnsOfAll, ColumnsOfOption;
    PartsCovered(ItemExpressions(s.items), Elements(columns));
    forall i | 0 <= i < |s.items|
      ensures ColumnsOf(Projections(s.items)[i].expression) <= Elements(columns)
    {
      assert ItemExpressions(s.items)[i] == Projections(s.items)[i].expression;
    }
  }

  /** A DELETE reaches exactly the rows its condition wants. */
  lemma DeleteKeepsMeaning(ops: Operations, s: Statement, root: Operator, table: seq<Row>)
    requires s.Delete? && IsPlan(s, Plan(root))
    ensures root.DeleteRows? && root.collectionId == s.collectionId && YieldsRows(root.child)
    ensures Ids(RowsOf(ops, root.child, table)) == Ids(Wanted(ops, s.where_, None, table))
  {
    hide Lists, Wanted, RowsOf, YieldsRows;
    var columns :| Lists(columns, ColumnsOfOption(s.where_)) && Plan(root) == Plan(DeleteTree(s, columns));
    ListsElements(columns, ColumnsOfOption(s.where_));
    FiltersKeep(ops, s.collectionId, s.where_, None, columns, table);
    assert Filtered(None, Filtered(s.where_, Scan(s.collectionId, columns))) == root.child;
  }

  lemma ListsElements(columns: seq<nat>, members: set<nat>)
    requires Lists(columns, members)
    ensures Elements(columns) == members
  {
  }

  /** An UPDATE reaches exactly the rows its condition wants, with the values they would get from whole rows. */
  lemma UpdateKeepsMeaning(ops: Operations, s: Statement, root: Operator, table: seq<Row>)
    requires s.Update? && IsPlan(s, Plan(root))
    ensures TargetsColumns(s.updates) && root.UpdateRows? && root.collectionId == s.collectionId
    ensures YieldsRows(root.child)
    ensures AssignRows(ops, root.assignments, RowsOf(ops, root.child, table)) == UpdateAnswer(ops, s, table)
  {
    hide Lists, Wanted, RowsOf, YieldsRows, AssignRows, CutAll, UpdateColumns, NewValues;
    var columns :| Lists(columns, UpdateColumns(s)) && Plan(root) == Plan(UpdateTree(s, columns));
    ListsElements(columns, UpdateColumns(s));
    UpdateCovers(s);
    FiltersKeep(ops, s.collectionId, s.where_, None, columns, table);
    assert Filtered(None, Filtered(s.where_, Scan(s.collectionId, columns))) == root.child;
    AssignCut(ops, Assignments(s.updates), Wanted(ops, s.where_, None, table), columns);
    AssignmentsSetItems(ops, s.updates, Wanted(ops, s.where_, None, table));
  }

  lemma UpdateCovers(s: Statement)
    requires s.Update? && TargetsColumns(s.updates)
    ensures ColumnsOfOption(s.where_) <= UpdateColumns(s)
    ensures forall i | 0 <= i < |s.updates| :: ColumnsOf(Assignments(s.updates)[i].value) <= UpdateColumns(s)
  {
    hide ColumnsOf;
    UpdateItemsCovered(s.updates);
  }

  lemma {:induction false} UpdateItemsCovered(updates: seq<UpdateItem>)
    requires TargetsColumns(updates)
    ensures forall i | 0 <= i < |updates| :: ColumnsOf(updates[i].value) <= UpdateItemColumns(updates)
    decreases |updates|
  {
    hide ColumnsOf;
    if updates != [] {
      UpdateItemsCovered(updates[..|updates| - 1]);
      forall i | 0 <= i < |updates|
        ensures ColumnsOf(updates[i].value) <= UpdateItemColumns(updates)
      {
        if i < |updates| - 1 {
          assert updates[i] == updates[..|updates| - 1][i];
        }
      }
    }
  }

  // The scan reads exactly what the statement mentions.

  ghost predicate OptionRefers(e: Option<Expression>, c: nat) {
    e.Some? && RefersTo(e.value, c)
  }

  ghost predicate Mentions(s: Statement, c: nat) {
    match s
    case Select(_, items, where_, groupBy, having, orderBy, _, _) =>
      || (exists item :: item in items && RefersTo(item.expression, c))
      || OptionRefers(where_, c) || (exists e :: e in groupBy && RefersTo(e, c)) || OptionRefers(having, c)
      || exists item :: item in orderBy && RefersTo(item.expression, c)
    case Delete(_, where_) => OptionRefers(where_, c)
    case Update(_, updates, where_) =>
      || OptionRefers(where_, c)
      || exists item :: item in updates && (RefersTo(item.columnReference, c) || RefersTo(item.value, c))
    case Unplanned(_) => false
  }

  function ScanOf(op: Operator): Operator {
    if op.Scan? then op else ScanOf(op.child)
  }

  lemma OptionFinds(e: Option<Expression>, c: nat)
    ensures c in ColumnsOfOption(e) <==> OptionRefers(e, c)
  {
    if e.Some? {
      WalkFinds(e.value, c);
    }
  }

  lemma SelectFinds(s: Statement, c: nat)
    requires s.Select?
    ensures c in SelectColumns(s) <==> Mentions(s, c)
  {
    hide RefersTo;
    OptionFinds(s.where_, c);
    OptionFinds(s.having, c);
    WalkAllFinds(s.groupBy, c);
    WalkAllFinds(ItemExpressions(s.items), c);
    WalkAllFinds(OrderExpressions(s.orderBy), c);
    ItemsRefer(s.items, c);
    OrderRefers(s.orderBy, c);
  }

  lemma ItemsRefer(items: seq<SelectItem>, c: nat)
    ensures (exists e :: e in ItemExpressions(items) && RefersTo(e, c))
        <==> exists item :: item in items && RefersTo(item.expression, c)
  {
    hide RefersTo;
    if e :| e in ItemExpressions(items) && RefersTo(e, c) {
      var i :| 0 <= i < |items| && ItemExpressions(items)[i] == e;
      assert items[i] in items && RefersTo(items[i].expression, c);
    }
    if item :| item in items && RefersTo(item.expression, c) {
      var i :| 0 <= i < |items| && items[i] == item;
      assert ItemExpressions(items)[i] == item.expression;
    }
  }

  lemma OrderRefers(items: seq<OrderItem>, c: nat)
    ensures (exists e :: e in OrderExpressions(items) && RefersTo(e, c))
        <==> exists item :: item in items && RefersTo(item.expression, c)
  {
    hide RefersTo;
    if e :| e in OrderExpressions(items) && RefersTo(e, c) {
      var i :| 0 <= i < |items| && OrderExpressions(items)[i] == e;
      assert items[i] in items && RefersTo(items[i].expression, c);
    }
    if item :| item in items && RefersTo(item.expression, c) {
      var i :| 0 <= i < |items| && items[i] == item;
      assert OrderExpressions(items)[i] == item.expression;
    }
  }

  lemma {:induction false} UpdateItemsFind(updates: seq<UpdateItem>, c: nat)
    requires TargetsColumns(updates)
    ensures c in UpdateItemColumns(updates)
        <==> exists item :: item in updates && (RefersTo(item.columnReference, c) || RefersTo(item.value, c))
    decreases |updates|
  {
    if updates != [] {
      var rest, last := updates[..|updates| - 1], updates[|updates| - 1];
      assert updates == rest + [last];
      UpdateItemsFind(rest, c);
      WalkFinds(last.value, c);
    }
  }

  /** The scan at the bottom of a plan reads, in ascending order, exactly the columns the statement mentions. */
  lemma ScanIsExact(s: Statement, root: Operator, c: nat)
    requires IsPlan(s, Plan(root))
    ensures var scan := ScanOf(root);
            && scan.Scan? && scan.collectionId == s.collectionId
            && (forall i, j | 0 <= i < j < |scan.columns| :: scan.columns[i] < scan.columns[j])
            && (c in scan.columns <==> Mentions(s, c))
  {
    hide SelectColumns, UpdateColumns, Mentions, Aggregates;
    match s
    case Select(_, _, _, _, _, _, _, _) =>
      var columns :| Lists(columns, SelectColumns(s)) && root == SelectTree(s, columns);
      SelectFinds(s, c);
      SelectScan(s, columns);
    case Delete(_, _) =>
      var columns :| Lists(columns, ColumnsOfOption(s.where_)) && root == DeleteTree(s, columns);
      OptionFinds(s.where_, c);
      DeleteMentions(s, c);
      FilteredScan(s.where_, s.collectionId, columns);
    case Update(_, _, _) =>
      var columns :| Lists(columns, UpdateColumns(s)) && root == UpdateTree(s, columns);
      UpdateFinds(s, c);
      FilteredScan(s.where_, s.collectionId, columns);
  }

  lemma FilteredScan(where_: Option<Expression>, collectionId: nat, columns: seq<nat>)
    ensures ScanOf(Filtered(where_, Scan(collectionId, columns))) == Scan(collectionId, columns)
  {
  }

  lemma SelectScan(s: Statement, columns: seq<nat>)
    requires s.Select?
    ensures ScanOf(SelectTree(s, columns)) == Scan(s.collectionId, columns)
  {
    hide Aggregates;
    var filtered := Filtered(s.where_, Scan(s.collectionId, columns));
    assert ScanOf(filtered) == Scan(s.collectionId, columns);
    var grouped := if Aggregates(s) then Aggregate(s.groupBy, Projections(s.items), filtered) else filtered;
    assert ScanOf(grouped) == ScanOf(filtered);
    var having := Filtered(s.having, grouped);
    assert ScanOf(having) == ScanOf(grouped);
    var projected := if Aggregates(s) then having else Project(Projections(s.items), having);
    assert ScanOf(projected) == ScanOf(having);
  }

  lemma DeleteMentions(s: Statement, c: nat)
    requires s.Delete?
    ensures Mentions(s, c) <==> OptionRefers(s.where_, c)
  {
  }

  lemma UpdateFinds(s: Statement, c: nat)
    requires s.Update? && TargetsColumns(s.updates)
    ensures c in UpdateColumns(s) <==> Mentions(s, c)
  {
    hide RefersTo;
    OptionFinds(s.where_, c);
    UpdateItemsFind(s.updates, c);
  }
}
