/** The table: entities by id. */
module Storage {
  import opened IndexKey

  /** An entity with its internal id and its field values. */
  datatype Entity = Entity(id: nat, values: seq<FieldValue>)

  /** The result of a mutation, or the exception for a field outside the entity. */
  datatype Mutation = Success | Failure(message: string) | OutOfRange

  /** Assigns fields one by one; stops at the first that does not exist, keeping what was assigned before. */
  function Assigned(values: seq<FieldValue>, fields: seq<(nat, FieldValue)>): (r: (seq<FieldValue>, bool))
    ensures |r.0| == |values|
    decreases fields
  {
    if fields == [] then (values, true)
    else if fields[0].0 >= |values| then (values, false)
    else Assigned(values[fields[0].0 := fields[0].1], fields[1..])
  }

  /** Every assignment finds its field: then each field holds the last value assigned to it, or its old one. */
  lemma {:induction false} AssignedLast(values: seq<FieldValue>, fields: seq<(nat, FieldValue)>, i: nat)
    requires i < |values|
    ensures Assigned(values, fields).1 <==> forall f | f in fields :: f.0 < |values|
    ensures Assigned(values, fields).1 ==>
              if exists k :: 0 <= k < |fields| && fields[k].0 == i
              then exists k :: 0 <= k < |fields| && fields[k] == (i, Assigned(values, fields).0[i])
                               && forall m | k < m < |fields| :: fields[m].0 != i
              else Assigned(values, fields).0[i] == values[i]
    decreases fields
  {
    if fields != [] && fields[0].0 < |values| {
      var rest := fields[1..];
      var now := values[fields[0].0 := fields[0].1];
      AssignedLast(now, rest, i);
      assert fields == [fields[0]] + rest;
      if Assigned(values, fields).1 {
        if k :| 0 <= k < |rest| && rest[k].0 == i {
          var last :| 0 <= last < |rest| && rest[last] == (i, Assigned(values, fields).0[i])
                      && forall m | last < m < |rest| :: rest[m].0 != i;
          assert fields[last + 1] == rest[last];
          forall m | last + 1 < m < |fields|
            ensures fields[m].0 != i
          {
            assert fields[m] == rest[m - 1];
          }
        } else if fields[0].0 == i {
          assert forall m | 0 < m < |fields| :: fields[m] == rest[m - 1];
          assert fields[0] == (i, Assigned(values, fields).0[i]);
        } else {
          assert forall k | 0 < k < |fields| :: fields[k] == rest[k - 1];
        }
      }
    }
  }

  /** The first assignment without a field ends the update; those before it stay. */
  lemma {:induction false} AssignedPartly(values: seq<FieldValue>, fields: seq<(nat, FieldValue)>, k: nat)
    requires k < |fields| && fields[k].0 >= |values| && forall i | 0 <= i < k :: fields[i].0 < |values|
    ensures !Assigned(values, fields).1 && Assigned(values, fields[..k]).1
    ensures Assigned(values, fields).0 == Assigned(values, fields[..k]).0
    decreases k
  {
    if k > 0 {
      var now := values[fields[0].0 := fields[0].1];
      assert fields[..k][1..] == fields[1..][..k - 1];
      AssignedPartly(now, fields[1..], k - 1);
    }
  }

  /** Every entity of the table once, in no particular order. */
  ghost predicate Lists(entities: seq<Entity>, table: map<nat, Entity>) {
    && (forall i | 0 <= i < |entities| :: entities[i].id in table && table[entities[i].id] == entities[i])
    && (forall i, j | 0 <= i < j < |entities| :: entities[i].id != entities[j].id)
    && (forall id | id in table :: table[id] in entities)
  }

  class MemoryStorage {
    var entityMap: map<nat, Entity>

    ghost predicate Valid()
      reads this
    {
      forall id | id in entityMap :: entityMap[id].id == id
    }

    constructor ()
      ensures Valid() && entityMap == map[]
    {
      entityMap := map[];
    }

    method Insert(entity: Entity) returns (r: Mutation)
      requires Valid()
      modifies this
      ensures Valid()
      ensures if entity.id in old(entityMap) then r.Failure? && entityMap == old(entityMap)
              else r == Success && entityMap == old(entityMap)[entity.id := entity]
    {
      if entity.id in entityMap {
        return Failure("Entity id already exists");
      }
      entityMap := entityMap[entity.id := entity];
      return Success;
    }

    method RemoveById(id: nat) returns (r: Mutation)
      requires Valid()
      modifies this
      ensures Valid() && entityMap == old(entityMap) - {id}
      ensures if id in old(entityMap) then r == Success else r.Failure?
    {
      if id !in entityMap {
        return Failure("Entity id not found");
      }
      entityMap := entityMap - {id};
      return Success;
    }

    method UpdateById(id: nat, fields: seq<(nat, FieldValue)>) returns (r: Mutation)
      requires Valid()
      modifies this
      ensures Valid()
      ensures if id !in old(entityMap) then r.Failure? && entityMap == old(entityMap)
              else var (values, ok) := Assigned(old(entityMap)[id].values, fields);
                   && r == (if ok then Success else OutOfRange)
                   && entityMap == old(entityMap)[id := Entity(id, values)]
    {
      if id !in entityMap {
        return Failure("Entity id not found");
      }
      ghost var start := entityMap;
      for i := 0 to |fields|
        invariant id in entityMap && entityMap[id].id == id && entityMap == start[id := entityMap[id]]
        invariant Assigned(entityMap[id].values, fields[i..]) == Assigned(start[id].values, fields)
      {
        assert fields[i..][1..] == fields[i + 1..];
        var (index, value) := fields[i];
        if index >= |entityMap[id].values| {
          return OutOfRange;
        }
        entityMap := entityMap[id := Entity(id, entityMap[id].values[index := value])];
      }
      return Success;
    }

    method GetAllEntities() returns (results: seq<Entity>)
      requires Valid()
      ensures Lists(results, entityMap)
    {
      results := [];
      var remaining := entityMap.Keys;
      while remaining != {}
        invariant remaining <= entityMap.Keys
        invariant forall i | 0 <= i < |results| ::
                    && results[i].id in entityMap && entityMap[results[i].id] == results[i]
                    && results[i].id !in remaining
        invariant forall i, j | 0 <= i < j < |results| :: results[i].id != results[j].id
        invariant forall id | id in entityMap && id !in remaining :: entityMap[id] in results
        decreases |remaining|
      {
        var id :| id in remaining;
        remaining := remaining - {id};
        results := results + [entityMap[id]];
      }
    }
  }
}
