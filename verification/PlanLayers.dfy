/**
 * Every plan from its root downwards: which layer carries what of the statement.  Plans are built from the leaf
 * upwards; here each layer is met from above and compared with the statement item by item.
 */
module PlanLayers {
  import opened Wrappers
  import opened Plans

  /** Grouping is asked for by GROUP BY or by an aggregate function in the select list. */
  ghost predicate Grouped(s: Statement)
    requires s.Select?
  {
    s.groupBy != [] || exists item :: item in s.items && item.expression.Call? && item.expression.isAggregate
  }

  /** The projections are the select list: the same expressions in the same order, empty aliases left out. */
  ghost predicate Shows(projections: seq<ProjectItem>, items: seq<SelectItem>) {
    && |projections| == |items|
    && forall i | 0 <= i < |items| ::
         && projections[i].expression == items[i].expression
         && (projections[i].alias.None? <==> items[i].alias == "")
         && (projections[i].alias.Some? ==> projections[i].alias.value == items[i].alias)
  }

  ghost predicate LimitedOver(s: Statement, op: Operator)
    requires s.Select?
  {
    if s.limit.None? && s.offset.None? then SortedOver(s, op)
    else op.LimitOffset? && op.limit == s.limit && op.offset == s.offset && SortedOver(s, op.child)
  }

  ghost predicate SortedOver(s: Statement, op: Operator)
    requires s.Select?
  {
    if s.orderBy == [] then SelectedOver(s, op)
    else
      && op.Sort? && |op.order| == |s.orderBy|
      && (forall i | 0 <= i < |s.orderBy| ::
            op.order[i].expression == s.orderBy[i].expression && op.order[i].direction == s.orderBy[i].direction)
      && SelectedOver(s, op.child)
  }

  ghost predicate SelectedOver(s: Statement, op: Operator)
    requires s.Select?
  {
    if Grouped(s) then HavingOver(s, op)
    else op.Project? && Shows(op.projections, s.items) && HavingOver(s, op.child)
  }

  ghost predicate HavingOver(s: Statement, op: Operator)
    requires s.Select?
  {
    if s.having.None? then GroupedOver(s, op)
    else op.Filter? && op.condition == s.having.value && GroupedOver(s, op.child)
  }

  ghost predicate GroupedOver(s: Statement, op: Operator)
    requires s.Select?
  {
    if !Grouped(s) then WhereOver(s.where_, s.collectionId, op)
    else
      && op.Aggregate? && |op.groups| == |s.groupBy|
      && (forall i | 0 <= i < |s.groupBy| :: op.groups[i] == s.groupBy[i]) && Shows(op.projections, s.items)
      && WhereOver(s.where_, s.collectionId, op.child)
  }

  ghost predicate WhereOver(where_: Option<Expression>, collectionId: nat, op: Operator) {
    if where_.None? then op.Scan? && op.collectionId == collectionId
    else op.Filter? && op.condition == where_.value && op.child.Scan? && op.child.collectionId == collectionId
  }

  /** The assignments are the SET list: the same columns and values in the same order. */
  ghost predicate Sets(assignments: seq<Assignment>, updates: seq<UpdateItem>) {
    && |assignments| == |updates|
    && forall i | 0 <= i < |updates| ::
         updates[i].columnReference == Column(assignments[i].columnId) && assignments[i].value == updates[i].value
  }

  /** What the statement asks for stands in the plan, layer by layer. */
  ghost predicate Layered(s: Statement, op: Operator) {
    match s
    case Select(_, _, _, _, _, _, _, _) => LimitedOver(s, op)
    case Delete(_, _) =>
      op.DeleteRows? && op.collectionId == s.collectionId && WhereOver(s.where_, s.collectionId, op.child)
    case Update(_, _, _) =>
      && op.UpdateRows? && op.collectionId == s.collectionId && Sets(op.assignments, s.updates)
      && WhereOver(s.where_, s.collectionId, op.child)
    case Unplanned(_) => false
  }

  lemma AggregatesIsGrouped(s: Statement)
    requires s.Select?
    ensures Aggregates(s) <==> Grouped(s)
  {
    if i :| 0 <= i < |s.items| && IsAggregate(s.items[i]) {
      assert s.items[i] in s.items;
    }
    if item :| item in s.items && item.expression.Call? && item.expression.isAggregate {
      var i :| 0 <= i < |s.items| && s.items[i] == item;
      assert IsAggregate(s.items[i]);
    }
  }

  lemma ProjectionsShow(items: seq<SelectItem>)
    ensures Shows(Projections(items), items)
  {
  }

  lemma FilteredOver(where_: Option<Expression>, collectionId: nat, columns: seq<nat>)
    ensures WhereOver(where_, collectionId, Filtered(where_, Scan(collectionId, columns)))
  {
  }

  lemma TreeIsLayered(s: Statement, columns: seq<nat>)
    requires s.Select?
    ensures LimitedOver(s, SelectTree(s, columns))
  {
    hide Aggregates, Grouped, Shows, WhereOver, Filtered, Projections;
    AggregatesIsGrouped(s);
    ProjectionsShow(s.items);
    var filtered := Filtered(s.where_, Scan(s.collectionId, columns));
    FilteredOver(s.where_, s.collectionId, columns);
    var grouped := if Aggregates(s) then Aggregate(s.groupBy, Projections(s.items), filtered) else filtered;
    assert GroupedOver(s, grouped);
    var having := Filtered(s.having, grouped);
    HavingIsOver(s, grouped);
    var projected := if Aggregates(s) then having else Project(Projections(s.items), having);
    assert SelectedOver(s, projected);
    var sorted := if s.orderBy != [] then Sort(s.orderBy, projected) else projected;
    assert SortedOver(s, sorted);
  }

  lemma HavingIsOver(s: Statement, op: Operator)
    requires s.Select? && GroupedOver(s, op)
    ensures HavingOver(s, Filtered(s.having, op))
  {
    hide GroupedOver;
  }

  /** Every plan, grouped and sorted ones included, carries the statement layer by layer. */
  lemma PlanIsLayered(s: Statement, root: Operator)
    requires IsPlan(s, Plan(root))
    ensures Layered(s, root)
  {
    hide Lists, SelectColumns, UpdateColumns, SelectTree, WhereOver, Filtered;
    match s
    case Select(_, _, _, _, _, _, _, _) =>
      var columns :| Lists(columns, SelectColumns(s)) && Plan(root) == Plan(SelectTree(s, columns));
      TreeIsLayered(s, columns);
    case Delete(_, _) =>
      var columns :| Lists(columns, ColumnsOfOption(s.where_)) && Plan(root) == Plan(DeleteTree(s, columns));
      FilteredOver(s.where_, s.collectionId, columns);
    case Update(_, _, _) =>
      var columns :| Lists(columns, UpdateColumns(s)) && Plan(root) == Plan(UpdateTree(s, columns));
      FilteredOver(s.where_, s.collectionId, columns);
  }
}
