/** The logical planner: collects columns, then builds the operator tree layer by layer. */
module Planner {
  import Ast
  import opened Wrappers
  import opened Plans

  class BoundColumnCollector {
    var columnIds: seq<nat>

    constructor ()
      ensures columnIds == []
    {
      columnIds := [];
    }

    method Visit(e: Expression)
      modifies this
      ensures columnIds == old(columnIds) + Walk(e)
      decreases e, 0
    {
      match e
      case Column(columnId) => columnIds := columnIds + [columnId];
      case Constant(_) =>
      case Unary(_, operand) => Visit(operand);
      case Binary(_, left, right) =>
        Visit(left);
        Visit(right);
        Regroup(old(columnIds), Walk(left), Walk(right));
      case Call(_, _, arguments) => VisitAll(arguments);
      case InList(left, values, _) =>
        Visit(left);
        VisitAll(values);
        Regroup(old(columnIds), Walk(left), WalkAll(values));
      case Between(left, start, end, _) =>
        Visit(left);
        Visit(start);
        Visit(end);
        Regroup(old(columnIds), Walk(left) + Walk(start), Walk(end));
        Regroup(old(columnIds), Walk(left), Walk(start));
      case Like(left, pattern, _) =>
        Visit(left);
        Visit(pattern);
        Regroup(old(columnIds), Walk(left), Walk(pattern));
    }

    method VisitAll(es: seq<Expression>)
      modifies this
      ensures columnIds == old(columnIds) + WalkAll(es)
      decreases es
    {
      for i := 0 to |es|
        invariant columnIds + WalkAll(es[i..]) == old(columnIds) + WalkAll(es)
      {
        assert es[i..][1..] == es[i + 1..];
        Visit(es[i]);
      }
    }
  }

  /** The members of a set, sorted. */
  method Sorted(members: set<nat>) returns (columns: seq<nat>)
    ensures Lists(columns, members)
  {
    hide Lists;
    columns := [];
    NothingListed();
    var remaining := members;
    assert members - members == {};
    while remaining != {}
      invariant remaining <= members && Lists(columns, members - remaining)
      invariant forall x, y | x in columns && y in remaining :: x < y
      decreases |remaining|
    {
      HasLeast(remaining);
      ghost var first :| IsLeast(first, remaining);
      var least :| least in remaining && forall x | x in remaining :: least <= x;
      ListsAppend(columns, members - remaining, least);
      assert members - (remaining - {least}) == members - remaining + {least};
      remaining := remaining - {least};
      columns := columns + [least];
    }
    assert members - {} == members;
  }

  lemma NothingListed()
    ensures Lists([], {})
  {
  }

  lemma ListsAppend(columns: seq<nat>, members: set<nat>, last: nat)
    requires Lists(columns, members) && forall x | x in columns :: x < last
    ensures Lists(columns + [last], members + {last})
  {
    var now := columns + [last];
    assert forall i | 0 <= i < |columns| :: columns[i] in columns;
    forall x
      ensures x in Elements(now) <==> x in members + {last}
    {
      assert x in members <==> x in Elements(columns);
    }
  }

  ghost predicate IsLeast(least: nat, members: set<nat>) {
    least in members && forall x | x in members :: least <= x
  }

  lemma {:induction false} HasLeast(members: set<nat>)
    requires members != {}
    ensures exists least :: IsLeast(least, members)
  {
    var some :| some in members;
    var rest := members - {some};
    if rest == {} {
      assert members == {some};
      assert IsLeast(some, members);
    } else {
      HasLeast(rest);
      var least :| IsLeast(least, rest);
      LeastOfMore(least, rest, some);
      assert members == rest + {some};
    }
  }

  lemma LeastOfMore(least: nat, rest: set<nat>, more: nat)
    requires IsLeast(least, rest)
    ensures IsLeast(if least <= more then least else more, rest + {more})
  {
  }

  method CollectColumnIds(e: Expression) returns (columns: seq<nat>)
    ensures Lists(columns, ColumnsOf(e))
  {
    var collector := new BoundColumnCollector();
    collector.Visit(e);
    assert collector.columnIds == Walk(e);
    var unique := set x | x in collector.columnIds;
    columns := Sorted(unique);
  }

  /** The columns of several expressions, put into one set. */
  method CollectAll(es: seq<Expression>) returns (required: set<nat>)
    ensures required == ColumnsOfAll(es)
  {
    required := {};
    for i := 0 to |es|
      invariant required + ColumnsOfAll(es[i..]) == ColumnsOfAll(es)
    {
      assert es[i..][1..] == es[i + 1..];
      var columns := CollectColumnIds(es[i]);
      required := required + set x | x in columns;
    }
  }

  method CollectOptional(e: Option<Expression>) returns (required: set<nat>)
    ensures required == ColumnsOfOption(e)
  {
    required := {};
    if e.Some? {
      var columns := CollectColumnIds(e.value);
      required := required + set x | x in columns;
    }
  }

  method ProjectAll(items: seq<SelectItem>) returns (projections: seq<ProjectItem>)
    ensures projections == Projections(items)
  {
    projections := [];
    for i := 0 to |items|
      invariant |projections| == i && forall j | 0 <= j < i :: projections[j] == Projection(items[j])
    {
      var item := items[i];
      projections := projections + [ProjectItem(item.expression, if item.alias == "" then None else Some(item.alias))];
    }
  }

  method HasAggregate(items: seq<SelectItem>) returns (hasAggregate: bool)
    ensures hasAggregate <==> exists i :: 0 <= i < |items| && IsAggregate(items[i])
  {
    hasAggregate := false;
    for i := 0 to |items|
      invariant !hasAggregate && forall j | 0 <= j < i :: !IsAggregate(items[j])
    {
      if items[i].expression.Call? && items[i].expression.isAggregate {
        hasAggregate := true;
        break;
      }
    }
  }

  method PlanSelect(s: Statement) returns (root: Operator)
    requires s.Select?
    ensures IsPlan(s, Plan(root))
  {
    hide Lists, ColumnsOfAll, ColumnsOfOption, IsAggregate;
    var required := CollectAll(ItemExpressions(s.items));
    var whereColumns := CollectOptional(s.where_);
    var groupColumns := CollectAll(s.groupBy);
    var havingColumns := CollectOptional(s.having);
    var orderColumns := CollectAll(OrderExpressions(s.orderBy));
    required := required + whereColumns + groupColumns + havingColumns + orderColumns;
    var columns := Sorted(required);

    root := Scan(s.collectionId, columns);
    if s.where_.Some? {
      root := Filter(s.where_.value, root);
    }
    var hasAggregate := HasAggregate(s.items);
    var projections := ProjectAll(s.items);
    if |s.groupBy| > 0 || hasAggregate {
      root := Aggregate(s.groupBy, projections, root);
    }
    if s.having.Some? {
      root := Filter(s.having.value, root);
    }
    if |s.groupBy| == 0 && !hasAggregate {
      root := Project(projections, root);
    }
    if |s.orderBy| > 0 {
      root := Sort(s.orderBy, root);
    }
    if s.limit.Some? || s.offset.Some? {
      root := LimitOffset(s.limit, s.offset, root);
    }
    assert root == SelectTree(s, columns);
  }

  method PlanDelete(s: Statement) returns (root: Operator)
    requires s.Delete?
    ensures IsPlan(s, Plan(root))
  {
    var columns := [];
    if s.where_.Some? {
      columns := CollectColumnIds(s.where_.value);
    }
    root := Scan(s.collectionId, columns);
    if s.where_.Some? {
      root := Filter(s.where_.value, root);
    }
    root := DeleteRows(s.collectionId, root);
    assert root == DeleteTree(s, columns);
  }

  method PlanUpdate(s: Statement) returns (p: Planned)
    requires s.Update?
    ensures IsPlan(s, p)
  {
    hide Lists, ColumnsOf;
    var whereColumns := CollectOptional(s.where_);
    var required := whereColumns;
    var assignments: seq<Assignment> := [];
    for i := 0 to |s.updates|
      invariant TargetsColumns(s.updates[..i]) && required == whereColumns + UpdateItemColumns(s.updates[..i])
      invariant |assignments| == i
      invariant forall j | 0 <= j < i ::
        assignments[j] == Assignment(s.updates[j].columnReference.columnId, s.updates[j].value)
    {
      var item := s.updates[i];
      if !item.columnReference.Column? {
        return Planned.Throw(BAD_TARGET);
      }
      var columnId := item.columnReference.columnId;
      var valueColumns := CollectColumnIds(item.value);
      ListsMeans(valueColumns, ColumnsOf(item.value));
      required := required + {columnId} + set x | x in valueColumns;
      assignments := assignments + [Assignment(columnId, item.value)];
      assert s.updates[..i + 1][..i] == s.updates[..i];
    }
    assert s.updates[..|s.updates|] == s.updates;
    var columns := Sorted(required);
    var root := Scan(s.collectionId, columns);
    if s.where_.Some? {
      root := Filter(s.where_.value, root);
    }
    root := UpdateRows(s.collectionId, assignments, root);
    assert root == UpdateTree(s, columns);
    return Plan(root);
  }

  lemma ListsMeans(columns: seq<nat>, members: set<nat>)
    requires Lists(columns, members)
    ensures (set x | x in columns) == members
  {
  }

  method PlanStatement(s: Statement) returns (p: Planned)
    ensures IsPlan(s, p)
  {
    match s
    case Select(_, _, _, _, _, _, _, _) =>
      var root := PlanSelect(s);
      return Plan(root);
    case Delete(_, _) =>
      var root := PlanDelete(s);
      return Plan(root);
    case Update(_, _, _) => p := PlanUpdate(s);
    case Unplanned(statementType) => return Planned.Throw(UNSUPPORTED + Ast.Decimal(statementType));
  }
}
