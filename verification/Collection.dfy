/** A collection: its table, its indexes, and their declarations. */
module Collection {
  import opened Wrappers
  import opened IndexKey
  import opened Postings
  import opened BTreeIndex
  import opened HashIndex
  import opened IndexManager
  import opened Storage
  import opened Maintenance

  ghost function Mentions(fieldToIndex: map<nat, seq<string>>, field: nat): multiset<string> {
    if field in fieldToIndex then multiset(fieldToIndex[field]) else multiset{}
  }

  /** Under each field stand the indexes that use it, as often as they do; the order is open. */
  ghost predicate FieldMapFor(fieldToIndex: map<nat, seq<string>>, metas: Metas) {
    && (forall field, name ::
          Mentions(fieldToIndex, field)[name] == if name in metas then multiset(metas[name].fields)[field] else 0)
    && forall field | field in fieldToIndex :: fieldToIndex[field] != []
  }

  function Mention(fieldToIndex: map<nat, seq<string>>, field: nat, name: string): map<nat, seq<string>> {
    fieldToIndex[field := (if field in fieldToIndex then fieldToIndex[field] else []) + [name]]
  }

  lemma NothingMentioned()
    ensures forall f :: Mentions(map[], f) == multiset{}
  {
  }

  lemma MentionCounts(fieldToIndex: map<nat, seq<string>>, field: nat, name: string, f: nat, n: string)
    ensures Mentions(Mention(fieldToIndex, field, name), f)[n]
         == Mentions(fieldToIndex, f)[n] + if f == field && n == name then 1 else 0
  {
  }

  lemma TakeCounts(fields: seq<nat>, i: nat, f: nat)
    requires i < |fields|
    ensures multiset(fields[..i + 1])[f] == multiset(fields[..i])[f] + if f == fields[i] then 1 else 0
  {
    assert fields[..i + 1] == fields[..i] + [fields[i]];
  }

  class Collection {
    var nextId: nat
    const fieldCount: nat
    const hasher: Hasher
    const storage: MemoryStorage  // the active segment's
    const manager: IndexManager
    var indexMetaMap: Metas
    var fieldToIndexMap: map<nat, seq<string>>

    ghost predicate Separate()
      reads this, manager
    {
      && storage !in manager.Objects() && this !in manager.Objects()
    }

    ghost predicate Valid()
      reads this, storage, manager, manager.Objects()
    {
      && Separate() && storage.Valid() && manager.Valid()
      && FieldMapFor(fieldToIndexMap, indexMetaMap) && Named(indexMetaMap)
      && forall name | name in indexMetaMap :: Declared(indexMetaMap[name], manager.State())
    }

    /** The manager has the index, as declared. */
    ghost predicate Declared(meta: IndexMeta, states: States) {
      && meta.name in states && states[meta.name].unique == meta.unique
      && states[meta.name].comparing == ComparingOf(meta.indexType, hasher)
    }

    /** All indexes agree with the table. */
    ghost predicate InStep()
      reads this, storage, manager, manager.Objects()
    {
      Valid() && Agrees(storage.entityMap, indexMetaMap, hasher, manager.State())
    }

    lemma StorageIsApart()
      requires Valid()
      ensures storage.Valid() && storage !in manager.Objects() && this !in manager.Objects() && Named(indexMetaMap)
    {
    }

    constructor (fieldCount: nat, hasher: Hasher)
      ensures InStep() && storage.entityMap == map[] && indexMetaMap == map[] && manager.State() == map[]
      ensures fresh(storage) && fresh(manager) && this.fieldCount == fieldCount && this.hasher == hasher
      ensures nextId == 1
    {
      nextId := 1;
      this.fieldCount := fieldCount;
      this.hasher := hasher;
      storage := new MemoryStorage();
      manager := new IndexManager();
      indexMetaMap := map[];
      fieldToIndexMap := map[];
    }

    /** A fresh id and as many NULLs as there are fields. */
    method CreateEntity() returns (entity: Entity)
      modifies this`nextId
      ensures entity.id == old(nextId) && nextId == old(nextId) + 1
      ensures |entity.values| == fieldCount && forall i | 0 <= i < fieldCount :: entity.values[i] == Null
    {
      entity := Entity(nextId, seq(fieldCount, i => Null));
      nextId := nextId + 1;
    }

    /** Lists an index under each of its fields. */
    method MentionAll(name: string, fields: seq<nat>)
      requires forall field | field in fieldToIndexMap :: fieldToIndexMap[field] != []
      modifies this`fieldToIndexMap
      ensures forall f, n :: Mentions(fieldToIndexMap, f)[n]
                == Mentions(old(fieldToIndexMap), f)[n] + if n == name then multiset(fields)[f] else 0
      ensures forall field | field in fieldToIndexMap :: fieldToIndexMap[field] != []
    {
      hide Mentions;
      for i := 0 to |fields|
        invariant forall f, n :: Mentions(fieldToIndexMap, f)[n]
                    == Mentions(old(fieldToIndexMap), f)[n] + if n == name then multiset(fields[..i])[f] else 0
        invariant forall field | field in fieldToIndexMap :: fieldToIndexMap[field] != []
      {
        forall f, n
          ensures Mentions(Mention(fieldToIndexMap, fields[i], name), f)[n]
               == Mentions(old(fieldToIndexMap), f)[n] + if n == name then multiset(fields[..i + 1])[f] else 0
        {
          MentionCounts(fieldToIndexMap, fields[i], name, f, n);
          TakeCounts(fields, i, f);
        }
        fieldToIndexMap := Mention(fieldToIndexMap, fields[i], name);
      }
      assert fields[..|fields|] == fields;
    }

    method RebuildFieldToIndexMap()
      modifies this`fieldToIndexMap
      ensures FieldMapFor(fieldToIndexMap, indexMetaMap)
    {
      hide Mentions;
      fieldToIndexMap := map[];
      NothingMentioned();
      var remaining := indexMetaMap.Keys;
      while remaining != {}
        invariant remaining <= indexMetaMap.Keys
        invariant forall field, name :: Mentions(fieldToIndexMap, field)[name]
                    == if name in indexMetaMap && name !in remaining
                       then multiset(indexMetaMap[name].fields)[field] else 0
        invariant forall field | field in fieldToIndexMap :: fieldToIndexMap[field] != []
        decreases |remaining|
      {
        var name :| name in remaining;
        remaining := remaining - {name};
        MentionAll(name, indexMetaMap[name].fields);
      }
    }

    method Insert(entity: Entity) returns (r: Mutation)
      requires Valid()
      modifies storage
      ensures Valid()
      ensures if entity.id in old(storage.entityMap) then r.Failure? && storage.entityMap == old(storage.entityMap)
              else r == Success && storage.entityMap == old(storage.entityMap)[entity.id := entity]
    {
      hide IndexManager.Valid, IndexManager.State, FieldMapFor, Named, Assigned;
      r := storage.Insert(entity);
    }

    method Remove(id: nat) returns (r: Mutation)
      requires Valid()
      modifies storage
      ensures Valid() && storage.entityMap == old(storage.entityMap) - {id}
      ensures if id in old(storage.entityMap) then r == Success else r.Failure?
    {
      hide IndexManager.Valid, IndexManager.State, FieldMapFor, Named, Assigned;
      r := storage.RemoveById(id);
    }

    method Update(id: nat, fields: seq<(nat, FieldValue)>) returns (r: Mutation)
      requires Valid()
      modifies storage
      ensures Valid()
      ensures if id !in old(storage.entityMap) then r.Failure? && storage.entityMap == old(storage.entityMap)
              else var (values, ok) := Assigned(old(storage.entityMap)[id].values, fields);
                   && r == (if ok then Success else OutOfRange)
                   && storage.entityMap == old(storage.entityMap)[id := Entity(id, values)]
    {
      hide IndexManager.Valid, IndexManager.State, FieldMapFor, Named, Assigned;
      r := storage.UpdateById(id, fields);
    }

    method CreateIndexKey(entity: Entity, fields: seq<nat>) returns (key: Option<Key>)
      ensures key == if InRange(fields, entity.values) then Some(KeyOf(fields, entity.values)) else None
    {
      var values: Key := [];
      for i := 0 to |fields|
        invariant |values| == i
        invariant forall j | 0 <= j < i :: fields[j] < |entity.values| && values[j] == entity.values[fields[j]]
      {
        if fields[i] >= |entity.values| {
          return None;
        }
        values := values + [entity.values[fields[i]]];
      }
      assert values == KeyOf(fields, entity.values);
      return Some(values);
    }

    lemma ValidMeans(meta: IndexMeta)
      requires Valid() && meta.name in indexMetaMap && indexMetaMap[meta.name] == meta
      ensures storage.Valid() && storage !in manager.Objects() && this !in manager.Objects()
      ensures Declared(meta, manager.State())
    {
    }

    /** Inserts into the index in the way of its kind. */
    method InsertKey(meta: IndexMeta, key: Option<Key>, id: nat) returns (ok: bool)
      requires Valid() && Admitted(manager.State(), meta.indexType, meta.name, Operation.Insert(key, id))
      modifies manager.Objects()
      ensures Valid() && manager.Objects() == old(manager.Objects())
      ensures (manager.State(), ok) ==
              Dispatched(old(manager.State()), meta.indexType, meta.name, Operation.Insert(key, id))
    {
      hide IndexManager.Valid, IndexManager.State, Dispatched, FieldMapFor, Named, Admits;
      DispatchKeeps(manager.State(), meta.indexType, meta.name, Operation.Insert(key, id));
      if meta.indexType == BTREE {
        ok := manager.InsertComparableIndex(meta.name, key, id);
      } else {
        ok := manager.InsertHashableIndex(meta.name, key, id);
      }
    }

    method RemoveKey(meta: IndexMeta, key: Option<Key>, id: nat) returns (ok: bool)
      requires Valid() && Admitted(manager.State(), meta.indexType, meta.name, Operation.Remove(key, id))
      modifies manager.Objects()
      ensures Valid() && manager.Objects() == old(manager.Objects())
      ensures (manager.State(), ok) ==
              Dispatched(old(manager.State()), meta.indexType, meta.name, Operation.Remove(key, id))
    {
      hide IndexManager.Valid, IndexManager.State, Dispatched, FieldMapFor, Named, Admits;
      DispatchKeeps(manager.State(), meta.indexType, meta.name, Operation.Remove(key, id));
      if meta.indexType == BTREE {
        ok := manager.RemoveComparableIndex(meta.name, key, id);
      } else {
        ok := manager.RemoveHashableIndex(meta.name, key, id);
      }
    }

    method UpdateKey(meta: IndexMeta, oldKey: Option<Key>, newKey: Option<Key>, id: nat) returns (ok: bool)
      requires Valid() && Admitted(manager.State(), meta.indexType, meta.name, Operation.Update(oldKey, newKey, id))
      modifies manager.Objects()
      ensures Valid() && manager.Objects() == old(manager.Objects())
      ensures (manager.State(), ok) ==
              Dispatched(old(manager.State()), meta.indexType, meta.name, Operation.Update(oldKey, newKey, id))
    {
      hide IndexManager.Valid, IndexManager.State, Dispatched, FieldMapFor, Named, Admits;
      DispatchKeeps(manager.State(), meta.indexType, meta.name, Operation.Update(oldKey, newKey, id));
      if meta.indexType == BTREE {
        ok := manager.UpdateComparableIndex(meta.name, oldKey, newKey, id);
      } else {
        ok := manager.UpdateHashableIndex(meta.name, oldKey, newKey, id);
      }
    }

    /** Puts the key of every entity of the table into a new index; stops at a refusal or an exception. */
    method ScanInto(meta: IndexMeta) returns (r: Upkeep)
      requires Valid() && meta.name in indexMetaMap && indexMetaMap[meta.name] == meta
      requires Told(storage.entityMap, meta, hasher)
      requires meta.name in manager.State() && manager.State()[meta.name].postings == map[]
      modifies manager.Objects()
      ensures Valid() && manager.Objects() == old(manager.Objects())
      ensures meta.name in manager.State()
      ensures var p := manager.State()[meta.name].postings;
              && manager.State() == old(manager.State())[meta.name := old(manager.State()[meta.name]).(postings := p)]
              && Scanned(storage.entityMap, meta, r, p)
    {
      hide Valid, IndexManager.State, Inserted, KeyOf, InRange, Scanned, Scanning, Lists, Told, Fits, ComparingOf;
      ValidMeans(meta);
      ghost var before := manager.State();
      ghost var p: Postings := map[];
      ghost var keys: Keys := map[];
      var entities := storage.GetAllEntities();
      ScanStart(storage.entityMap, entities, meta);
      for i := 0 to |entities|
        invariant Valid() && manager.Objects() == old(manager.Objects())
        invariant manager.State() == before[meta.name := before[meta.name].(postings := p)]
        invariant Scanning(storage.entityMap, entities, i, meta, p, keys)
      {
        var entity := entities[i];
        var key := CreateIndexKey(entity, meta.fields);
        if key.None? {
          ScanThrows(storage.entityMap, entities, i, meta, p, keys);
          return NoSuchField;
        }
        ScanAdmits(storage.entityMap, entities, i, meta, hasher, p, keys);
        ScanTurn(storage.entityMap, entities, i, meta, p, keys);
        var ok := InsertKey(meta, key, entity.id);
        p := Inserted(p, meta.unique, key, entity.id).0;
        if !ok {
          return Refused;
        }
        keys := keys[entity.id := key.value];
      }
      ScanEnd(storage.entityMap, entities, meta, p, keys);
      return Done;
    }

    /** Declares an index and builds it, or takes everything back. */
    method CreateIndex(meta: IndexMeta) returns (r: Upkeep)
      requires Valid() && Told(storage.entityMap, meta, hasher)
      modifies this, manager, manager.Objects()
      ensures Valid() && nextId == old(nextId)
      ensures Created(storage.entityMap, meta, hasher, old(indexMetaMap), old(manager.State()),
                      indexMetaMap, manager.State(), r)
      ensures old(InStep()) && Wide(storage.entityMap, meta.fields) ==> InStep()
    {
      hide Valid, IndexManager.State, Scanned, Wide, Told, ComparingOf, Agrees, Matches;
      ghost var metas, states := indexMetaMap, manager.State();
      if meta.name in indexMetaMap {
        return Refused;
      }
      var isNew := Open(meta);
      if !isNew {
        return Refused;
      }
      r := ScanInto(meta);
      ScannedMeans(storage.entityMap, meta, r, manager.State()[meta.name].postings);
      if r.Refused? {
        var _ := RemoveIndex(meta.name);
        assert indexMetaMap == metas && manager.State() == states;
      }
      if old(InStep()) {
        CreatedAgrees(storage.entityMap, meta, hasher, metas, states, indexMetaMap, manager.State(), r);
      }
    }

    /** Declares and registers an empty index, unless one of that name is registered. */
    method Open(meta: IndexMeta) returns (ok: bool)
      requires Valid() && meta.name !in indexMetaMap
      modifies this, manager
      ensures Valid() && nextId == old(nextId) && ok == (meta.name !in old(manager.State()))
      ensures fresh(manager.Objects() - old(manager.Objects()))
      ensures indexMetaMap == if ok then old(indexMetaMap)[meta.name := meta] else old(indexMetaMap)
      ensures manager.State() ==
              if ok then old(manager.State())[meta.name :=
                IndexState(ComparingOf(meta.indexType, hasher), meta.unique, map[])]
              else old(manager.State())
    {
      hide IndexManager.Valid, IndexManager.State, FieldMapFor, Named, ComparingOf;
      ghost var metas := indexMetaMap;
      Declare(meta);
      ok := Register(meta);
      if !ok {
        Withdraw(meta.name);
        assert indexMetaMap == metas;
      }
    }

    method Register(meta: IndexMeta) returns (ok: bool)
      requires Separate() && manager.Valid()
      modifies manager
      ensures Separate() && manager.Valid() && ok == (meta.name !in old(manager.State()))
      ensures fresh(manager.Objects() - old(manager.Objects()))
      ensures manager.State() ==
              if ok then old(manager.State())[meta.name :=
                IndexState(ComparingOf(meta.indexType, hasher), meta.unique, map[])]
              else old(manager.State())
    {
      hide IndexManager.Valid, IndexManager.State, IsValid, StateOf, ComparingOf;
      var index := NewIndex(meta);
      ok := manager.RegisterIndex(meta.name, index);
    }

    method NewIndex(meta: IndexMeta) returns (index: IndexRef)
      ensures fresh(ObjectOf(index)) && IsValid(index)
      ensures StateOf(index) == IndexState(ComparingOf(meta.indexType, hasher), meta.unique, map[])
    {
      hide BTreeIndex.Valid, HashIndex.Valid;
      if meta.indexType == BTREE {
        var tree := new BTreeIndex(meta.name, meta.unique);
        index := Ordered(tree);
      } else {
        var table := new HashIndex(meta.name, meta.unique, hasher);
        index := Hashed(table);
      }
    }

    method Declare(meta: IndexMeta)
      requires Named(indexMetaMap)
      modifies this`indexMetaMap, this`fieldToIndexMap
      ensures indexMetaMap == old(indexMetaMap)[meta.name := meta]
      ensures Named(indexMetaMap) && FieldMapFor(fieldToIndexMap, indexMetaMap)
    {
      hide FieldMapFor;
      indexMetaMap := indexMetaMap[meta.name := meta];
      RebuildFieldToIndexMap();
    }

    method Withdraw(name: string)
      requires Named(indexMetaMap)
      modifies this`indexMetaMap, this`fieldToIndexMap
      ensures indexMetaMap == old(indexMetaMap) - {name}
      ensures Named(indexMetaMap) && FieldMapFor(fieldToIndexMap, indexMetaMap)
    {
      hide FieldMapFor;
      indexMetaMap := indexMetaMap - {name};
      RebuildFieldToIndexMap();
    }

    /** Drops an index and its declaration. */
    method RemoveIndex(name: string) returns (ok: bool)
      requires Valid()
      modifies this, manager
      ensures Valid() && manager.Objects() <= old(manager.Objects()) && nextId == old(nextId)
      ensures ok == (name in old(indexMetaMap))
      ensures indexMetaMap == old(indexMetaMap) - {name}
      ensures manager.State() == if ok then old(manager.State()) - {name} else old(manager.State())
      ensures old(InStep()) ==> InStep()
    {
      hide IndexManager.Valid, IndexManager.State, FieldMapFor, Told, Matches, Wide;
      if name !in indexMetaMap {
        assert indexMetaMap - {name} == indexMetaMap;
        return false;
      }
      var _ := manager.UnregisterIndex(name);
      Withdraw(name);
      return true;
    }

    /** Adds an entity's key to each listed index, until one refuses. */
    method UpdateIndexesOnInsert(entity: Entity, list: seq<IndexMeta>) returns (r: Upkeep)
      requires Valid() && Supported(manager.State(), Added(entity), list)
      modifies manager.Objects()
      ensures Valid() && manager.Objects() == old(manager.Objects())
      ensures (manager.State(), r) == Applied(old(manager.State()), Added(entity), list)
    {
      hide Valid, IndexManager.State, Applied, Supported, Dispatched, KeyOf, Admitted, InRange;
      ghost var whole := Applied(manager.State(), Added(entity), list);
      for i := 0 to |list|
        invariant Valid() && manager.Objects() == old(manager.Objects())
        invariant Supported(manager.State(), Added(entity), list[i..])
        invariant Applied(manager.State(), Added(entity), list[i..]) == whole
      {
        UpkeepTurn(manager.State(), Added(entity), list[i], list[i + 1..]);
        assert list[i..] == [list[i]] + list[i + 1..];
        var key := CreateIndexKey(entity, list[i].fields);
        if key.None? {
          return NoSuchField;
        }
        var ok := InsertKey(list[i], key, entity.id);
        if !ok {
          return Refused;
        }
      }
      NothingToDo(manager.State(), Added(entity));
      return Done;
    }

    /** Takes an entity's key out of each listed index, until one refuses. */
    method UpdateIndexesOnRemove(entity: Entity, list: seq<IndexMeta>) returns (r: Upkeep)
      requires Valid() && Supported(manager.State(), Deleted(entity), list)
      modifies manager.Objects()
      ensures Valid() && manager.Objects() == old(manager.Objects())
      ensures (manager.State(), r) == Applied(old(manager.State()), Deleted(entity), list)
    {
      hide Valid, IndexManager.State, Applied, Supported, Dispatched, KeyOf, Admitted, InRange;
      ghost var whole := Applied(manager.State(), Deleted(entity), list);
      for i := 0 to |list|
        invariant Valid() && manager.Objects() == old(manager.Objects())
        invariant Supported(manager.State(), Deleted(entity), list[i..])
        invariant Applied(manager.State(), Deleted(entity), list[i..]) == whole
      {
        UpkeepTurn(manager.State(), Deleted(entity), list[i], list[i + 1..]);
        assert list[i..] == [list[i]] + list[i + 1..];
        var key := CreateIndexKey(entity, list[i].fields);
        if key.None? {
          return NoSuchField;
        }
        var ok := RemoveKey(list[i], key, entity.id);
        if !ok {
          return Refused;
        }
      }
      NothingToDo(manager.State(), Deleted(entity));
      return Done;
    }

    /** Replaces an entity's key in each listed index, until one refuses. */
    method UpdateIndexesOnUpdate(before: Entity, entity: Entity, list: seq<IndexMeta>) returns (r: Upkeep)
      requires Valid() && Supported(manager.State(), Changed(before, entity), list)
      modifies manager.Objects()
      ensures Valid() && manager.Objects() == old(manager.Objects())
      ensures (manager.State(), r) == Applied(old(manager.State()), Changed(before, entity), list)
    {
      hide Valid, IndexManager.State, Applied, Supported, Dispatched, KeyOf, Admitted, InRange;
      ghost var whole := Applied(manager.State(), Changed(before, entity), list);
      for i := 0 to |list|
        invariant Valid() && manager.Objects() == old(manager.Objects())
        invariant Supported(manager.State(), Changed(before, entity), list[i..])
        invariant Applied(manager.State(), Changed(before, entity), list[i..]) == whole
      {
        UpkeepTurn(manager.State(), Changed(before, entity), list[i], list[i + 1..]);
        assert list[i..] == [list[i]] + list[i + 1..];
        var oldKey := CreateIndexKey(before, list[i].fields);
        if oldKey.None? {
          return NoSuchField;
        }
        var newKey := CreateIndexKey(entity, list[i].fields);
        if newKey.None? {
          return NoSuchField;
        }
        var ok := UpdateKey(list[i], oldKey, newKey, entity.id);
        if !ok {
          return Refused;
        }
      }
      NothingToDo(manager.State(), Changed(before, entity));
      return Done;
    }

    // A change of the table followed by the same change of all indexes.

    /** Inserts an entity and adds its keys to all indexes. */
    method InsertIndexed(entity: Entity) returns (r: Mutation, upkeep: Upkeep)
      requires InStep()
      requires entity.id !in storage.entityMap ==> Suits(storage.entityMap, indexMetaMap, hasher, Added(entity))
      modifies storage, manager.Objects()
      ensures Valid() && (r.Success? <==> entity.id !in old(storage.entityMap))
      ensures !r.Success? ==> InStep() && storage.entityMap == old(storage.entityMap)
      ensures r.Success? ==> storage.entityMap == After(old(storage.entityMap), Added(entity))
      ensures r.Success? ==> (upkeep.Done? <==> AllTake(old(storage.entityMap), indexMetaMap, Added(entity)))
      ensures upkeep.Done? ==> InStep()
    {
      hide Valid, IndexManager.State, Agrees, Applied, Supported, AllTake, Told;
      StorageIsApart();
      ghost var table, states := storage.entityMap, manager.State();
      r := Insert(entity);
      if !r.Success? {
        return r, Done;
      }
      var list := GetAllIndexMetadata();
      TurnAgrees(table, indexMetaMap, hasher, states, Added(entity), list);
      upkeep := UpdateIndexesOnInsert(entity, list);
    }

    /** Removes an entity and takes its keys out of all indexes; no index refuses that. */
    method RemoveIndexed(id: nat) returns (r: Mutation)
      requires InStep()
      modifies storage, manager.Objects()
      ensures InStep() && (r.Success? <==> id in old(storage.entityMap))
      ensures storage.entityMap == old(storage.entityMap) - {id}
    {
      hide Valid, IndexManager.State, Agrees, Applied, Supported, AllTake, Told;
      StorageIsApart();
      ghost var table, states := storage.entityMap, manager.State();
      var known := id in storage.entityMap;
      var entity := if known then storage.entityMap[id] else Entity(id, []);
      r := Remove(id);
      if !known {
        assert storage.entityMap == table;
        return;
      }
      var list := GetAllIndexMetadata();
      RemovalSuits(table, indexMetaMap, hasher, states, entity);
      TurnAgrees(table, indexMetaMap, hasher, states, Deleted(entity), list);
      var _ := UpdateIndexesOnRemove(entity, list);
    }

    /** Assigns fields of an entity and replaces its keys in all indexes; an exception leaves the indexes behind. */
    method UpdateIndexed(id: nat, fields: seq<(nat, FieldValue)>) returns (r: Mutation, upkeep: Upkeep)
      requires InStep()
      requires id in storage.entityMap && Assigned(storage.entityMap[id].values, fields).1 ==>
                 Suits(storage.entityMap, indexMetaMap, hasher, Assignment(storage.entityMap[id], fields))
      modifies storage, manager.Objects()
      ensures Valid()
      ensures r.Success? <==> id in old(storage.entityMap) && Assigned(old(storage.entityMap)[id].values, fields).1
      ensures r.Failure? ==> InStep() && storage.entityMap == old(storage.entityMap)
      ensures r.OutOfRange? ==> manager.State() == old(manager.State())
      ensures r.Success? ==>
                var change := Assignment(old(storage.entityMap)[id], fields);
                && storage.entityMap == After(old(storage.entityMap), change)
                && (upkeep.Done? <==> AllTake(old(storage.entityMap), indexMetaMap, change))
                && (upkeep.Done? ==> InStep())
    {
      hide Valid, IndexManager.State, Agrees, Applied, Supported, AllTake, Told, Assigned;
      StorageIsApart();
      ghost var table, states := storage.entityMap, manager.State();
      var known := id in storage.entityMap;
      var before := if known then storage.entityMap[id] else Entity(id, []);
      r := Update(id, fields);
      if !r.Success? {
        return r, Done;
      }
      var entity := storage.entityMap[id];
      var list := GetAllIndexMetadata();
      TurnAgrees(table, indexMetaMap, hasher, states, Changed(before, entity), list);
      upkeep := UpdateIndexesOnUpdate(before, entity, list);
    }

    /** The declarations of all indexes, in no particular order. */
    method GetAllIndexMetadata() returns (list: seq<IndexMeta>)
      requires Named(indexMetaMap)
      ensures ListsAll(list, indexMetaMap)
    {
      list := [];
      var remaining := indexMetaMap.Keys;
      while remaining != {}
        invariant remaining <= indexMetaMap.Keys && DistinctNames(list)
        invariant forall m | m in list :: m.name in indexMetaMap && m.name !in remaining && indexMetaMap[m.name] == m
        invariant forall name | name in indexMetaMap && name !in remaining :: indexMetaMap[name] in list
        decreases |remaining|
      {
        var name :| name in remaining;
        remaining := remaining - {name};
        assert forall j | 0 <= j < |list| :: list[j] in list;
        list := list + [indexMetaMap[name]];
      }
    }

    /** The declarations of the indexes that use any of the fields, each once. */
    method FindIndexMetadataByFields(fieldIndices: seq<nat>) returns (result: seq<IndexMeta>)
      requires FieldMapFor(fieldToIndexMap, indexMetaMap) && Named(indexMetaMap)
      ensures DistinctNames(result)
      ensures forall m :: m in result <==>
                m.name in indexMetaMap && indexMetaMap[m.name] == m && exists f :: f in fieldIndices && f in m.fields
    {
      hide FieldMapFor;
      var resultSet: set<string> := {};
      for i := 0 to |fieldIndices|
        invariant forall name :: name in resultSet <==>
          name in indexMetaMap && exists f :: f in fieldIndices[..i] && f in indexMetaMap[name].fields
      {
        assert fieldIndices[..i + 1] == fieldIndices[..i] + [fieldIndices[i]];
        UsersOfField(fieldToIndexMap, indexMetaMap, fieldIndices[i]);
        if fieldIndices[i] in fieldToIndexMap {
          resultSet := resultSet + set name | name in fieldToIndexMap[fieldIndices[i]];
        }
      }
      assert fieldIndices[..|fieldIndices|] == fieldIndices;
      result := [];
      ghost var all := resultSet;
      while resultSet != {}
        invariant resultSet <= all && DistinctNames(result)
        invariant forall m :: m in result <==> m.name in all && m.name !in resultSet && indexMetaMap[m.name] == m
        decreases |resultSet|
      {
        var name :| name in resultSet;
        resultSet := resultSet - {name};
        assert forall k | 0 <= k < |result| :: result[k] in result;
        result := result + [indexMetaMap[name]];
      }
    }
  }

  /** The change an update by assignments makes. */
  function Assignment(before: Entity, fields: seq<(nat, FieldValue)>): Change {
    Changed(before, Entity(before.id, Assigned(before.values, fields).0))
  }

  /** A removal suits every table, and all indexes take it. */
  lemma RemovalSuits(table: Table, metas: Metas, hasher: Hasher, states: States, entity: Entity)
    requires Agrees(table, metas, hasher, states) && entity.id in table && table[entity.id] == entity
    ensures Suits(table, metas, hasher, Deleted(entity)) && AllTake(table, metas, Deleted(entity))
  {
    hide KeyOf, Separates, Matches, ComparingOf;
    forall name | name in metas
      ensures Told(After(table, Deleted(entity)), metas[name], hasher)
      ensures Takes(table, Deleted(entity), metas[name])
    {
      var meta := metas[name];
      assert AgreesOn(table, meta, hasher, states);
      var fewer := KeySet(After(table, Deleted(entity)), meta.fields);
      SeparatesFewer(ComparingOf(meta.indexType, hasher), KeySet(table, meta.fields), fewer);
    }
  }

  lemma UsersOfField(fieldToIndex: map<nat, seq<string>>, metas: Metas, field: nat)
    requires FieldMapFor(fieldToIndex, metas)
    ensures field in fieldToIndex ==>
              forall name :: name in fieldToIndex[field] <==> name in metas && field in metas[name].fields
    ensures field !in fieldToIndex ==> forall name | name in metas :: field !in metas[name].fields
  {
    forall name
      ensures name in Mentions(fieldToIndex, field) <==> name in metas && field in metas[name].fields
    {
      assert Mentions(fieldToIndex, field)[name] == if name in metas then multiset(metas[name].fields)[field] else 0;
    }
    if field !in fieldToIndex {
      forall name | name in metas
        ensures field !in metas[name].fields
      {
        assert name !in Mentions(fieldToIndex, field);
      }
    }
  }

  /** Creating an index: when it is done, when it is taken back, and when it throws and leaves a part behind. */
  ghost predicate Created(table: Table, meta: IndexMeta, hasher: Hasher, metas: Metas, states: States,
                          newMetas: Metas, newStates: States, r: Upkeep)
  {
    if meta.name in metas || meta.name in states || r.Refused? then
      && r == Refused && newMetas == metas && newStates == states
      && (meta.name in metas || meta.name in states || Doubled(table, meta))
    else
      && newMetas == metas[meta.name := meta] && meta.name in newStates
      && var p := newStates[meta.name].postings;
         && newStates == states[meta.name := IndexState(ComparingOf(meta.indexType, hasher), meta.unique, p)]
         && Scanned(table, meta, r, p)
  }

  /** Two entities share a key that is to be unique. */
  ghost predicate Doubled(table: Table, meta: IndexMeta) {
    meta.unique && exists a, b :: a in table && b in table && a != b && SameKey(meta.fields, table[a], table[b])
  }

  /** The outcome of a scan, and what it put into the index. */
  ghost predicate Scanned(table: Table, meta: IndexMeta, r: Upkeep, p: Postings) {
    match r
    case Done => Wide(table, meta.fields) && !Doubled(table, meta) && Matches(p, TableKeys(table, meta.fields))
    case Refused => Doubled(table, meta)
    case NoSuchField => !Wide(table, meta.fields) && exists keys :: Matches(p, keys) && PartOf(keys, table, meta.fields)
  }

  /** Keys of some of the entities that have all the fields. */
  ghost predicate PartOf(keys: Keys, table: Table, fields: seq<nat>) {
    forall id | id in keys ::
      id in table && InRange(fields, table[id].values) && keys[id] == KeyOf(fields, table[id].values)
  }

  lemma ScannedMeans(table: Table, meta: IndexMeta, r: Upkeep, p: Postings)
    requires Scanned(table, meta, r, p)
    ensures r.Refused? ==> Doubled(table, meta)
  {
  }

  /** Index creation succeeds exactly when the name is free, every entity has the fields, and no key is doubled. */
  lemma CreatedExactly(table: Table, meta: IndexMeta, hasher: Hasher, metas: Metas, states: States,
                       newMetas: Metas, newStates: States, r: Upkeep)
    requires Created(table, meta, hasher, metas, states, newMetas, newStates, r)
    ensures r.Done? <==>
            meta.name !in metas && meta.name !in states && Wide(table, meta.fields) && !Doubled(table, meta)
    ensures r.NoSuchField? ==> !Wide(table, meta.fields)
    ensures r.NoSuchField? && Even(table, meta.fields) ==>
              meta.name in newStates && newStates[meta.name].postings == map[]
    ensures r.Refused? ==> newMetas == metas && newStates == states
  {
    hide Wide, Doubled, Matches, InRange;
    if r.NoSuchField? && Even(table, meta.fields) {
      var p := newStates[meta.name].postings;
      var keys :| Matches(p, keys) && PartOf(keys, table, meta.fields);
      assert keys.Keys == {};
      MatchesNoKeys(p, keys);
    }
  }

  /**
   * After creating an index all indexes agree with the table exactly when the name was taken or every entity has
   * the fields; provided that no doubled key is met on the way to an entity without them.
   */
  lemma CreatedAgrees(table: Table, meta: IndexMeta, hasher: Hasher, metas: Metas, states: States,
                      newMetas: Metas, newStates: States, r: Upkeep)
    requires Agrees(table, metas, hasher, states) && Told(table, meta, hasher)
    requires Created(table, meta, hasher, metas, states, newMetas, newStates, r)
    ensures meta.name in metas || meta.name in states || Wide(table, meta.fields)
            ==> Agrees(table, newMetas, hasher, newStates)
    ensures !Doubled(table, meta) || Even(table, meta.fields) ==>
            (Agrees(table, newMetas, hasher, newStates)
             <==> meta.name in metas || meta.name in states || Wide(table, meta.fields))
  {
    hide Matches, Wide, Told, PartOf, Even, Doubled;
    if Even(table, meta.fields) && !Wide(table, meta.fields) {
      NoneDoubled(table, meta);
    }
    if r.NoSuchField? {
      assert newMetas[meta.name] == meta;
    }
  }

  /** Either all entities have all the fields or none has. */
  ghost predicate Even(table: Table, fields: seq<nat>) {
    Wide(table, fields) || forall id | id in table :: !InRange(fields, table[id].values)
  }

  lemma NoneDoubled(table: Table, meta: IndexMeta)
    requires Even(table, meta.fields) && !Wide(table, meta.fields)
    ensures !Doubled(table, meta)
  {
  }

  /** Entities of one width have the fields all or none. */
  lemma SameWidthIsEven(table: Table, width: nat, fields: seq<nat>)
    requires forall id | id in table :: |table[id].values| == width
    ensures Even(table, fields)
  {
    if id :| id in table && InRange(fields, table[id].values) {
    }
  }

  /** An index on a field that the only entity does not have is left behind, declared and empty. */
  lemma CreateIndexLeavesBehind(hasher: Hasher, newMetas: Metas, newStates: States, r: Upkeep)
    requires Created(map[1 := Entity(1, [Null])], IndexMeta("i", BTREE, false, [1]), hasher, map[], map[],
                     newMetas, newStates, r)
    ensures r == NoSuchField && newMetas == map["i" := IndexMeta("i", BTREE, false, [1])]
    ensures newStates == map["i" := IndexState(ByOrder, false, map[])]
    ensures !Agrees(map[1 := Entity(1, [Null])], newMetas, hasher, newStates)
  {
    var table, meta := map[1 := Entity(1, [Null])], IndexMeta("i", BTREE, false, [1]);
    assert 1 in table && meta.fields[0] >= |table[1].values|;
    assert !InRange(meta.fields, table[1].values);
    assert newMetas[meta.name] == meta;
    var p := newStates["i"].postings;
    var keys :| Matches(p, keys) && PartOf(keys, table, meta.fields);
    assert keys == map[];
    MatchesNoKeys(p, keys);
  }

  lemma SomeoneHolds(p: Postings, keys: Keys, key: Key)
    requires Matches(p, keys) && key in p
    ensures keys.Keys != {}
  {
    assert p[key][0] in p[key] && p[key][0] in keys.Keys;
  }

  lemma MatchesNoKeys(p: Postings, keys: Keys)
    requires Matches(p, keys) && keys.Keys == {}
    ensures p == map[]
  {
    if key :| key in p {
      SomeoneHolds(p, keys, key);
    }
    assert p.Keys == {};
  }

  /** No operation changes what an index is declared to be. */
  lemma DispatchKeeps(states: States, indexType: IndexType, name: string, op: Operation)
    ensures var now := Dispatched(states, indexType, name, op).0;
            && now.Keys == states.Keys
            && forall other | other in states ::
                 now[other].comparing == states[other].comparing && now[other].unique == states[other].unique
  {
    hide Step;
  }

  // The scan, turn by turn: the index holds the keys of the entities seen so far.

  ghost predicate Scanning(table: Table, entities: seq<Entity>, i: nat, meta: IndexMeta, p: Postings, keys: Keys) {
    && i <= |entities| && Lists(entities, table) && Matches(p, keys) && PartOf(keys, table, meta.fields)
    && (meta.unique ==> AllDiffer(keys)) && forall j | 0 <= j < |entities| :: entities[j].id in keys <==> j < i
  }

  lemma ListedAt(table: Table, entities: seq<Entity>, i: nat)
    requires Lists(entities, table) && i < |entities|
    ensures entities[i].id in table && table[entities[i].id] == entities[i]
  {
  }

  lemma ScanStart(table: Table, entities: seq<Entity>, meta: IndexMeta)
    requires Lists(entities, table)
    ensures Scanning(table, entities, 0, meta, map[], map[])
  {
    MatchesNothing();
  }

  lemma ScanThrows(table: Table, entities: seq<Entity>, i: nat, meta: IndexMeta, p: Postings, keys: Keys)
    requires Scanning(table, entities, i, meta, p, keys) && i < |entities| && !InRange(meta.fields, entities[i].values)
    ensures Scanned(table, meta, NoSuchField, p)
  {
    hide Matches, PartOf, InRange;
    ListedAt(table, entities, i);
  }

  /** The index can tell the next key from those it holds: all are keys of the table. */
  lemma ScanAdmits(
    table: Table, entities: seq<Entity>, i: nat, meta: IndexMeta, hasher: Hasher, p: Postings, keys: Keys)
    requires Scanning(table, entities, i, meta, p, keys) && i < |entities| && InRange(meta.fields, entities[i].values)
    requires Told(table, meta, hasher)
    ensures Fits(ComparingOf(meta.indexType, hasher), p, Some(KeyOf(meta.fields, entities[i].values)))
  {
    hide Separates, KeyOf, InRange, ComparingOf;
    var key := KeyOf(meta.fields, entities[i].values);
    var known := KeySet(table, meta.fields);
    ListedAt(table, entities, i);
    KeySetHas(table, meta.fields, entities[i].id);
    forall k | k in p
      ensures k in known
    {
      var id := p[k][0];
      assert id in p[k] && keys[id] == k;
      KeySetHas(table, meta.fields, id);
    }
    SeparatesFewer(ComparingOf(meta.indexType, hasher), known, p.Keys + {key});
  }

  lemma ScanTurn(table: Table, entities: seq<Entity>, i: nat, meta: IndexMeta, p: Postings, keys: Keys)
    requires Scanning(table, entities, i, meta, p, keys) && i < |entities| && InRange(meta.fields, entities[i].values)
    ensures var entity := entities[i];
            var key := KeyOf(meta.fields, entity.values);
            var (q, ok) := Inserted(p, meta.unique, Some(key), entity.id);
            if ok then Scanning(table, entities, i + 1, meta, q, keys[entity.id := key])
            else Scanned(table, meta, Refused, q)
  {
    hide Matches, KeyOf, InRange, Inserted;
    var entity := entities[i];
    var key := KeyOf(meta.fields, entity.values);
    ListedAt(table, entities, i);
    InsertMatches(p, meta.unique, keys, key, entity.id);
    if !Inserted(p, meta.unique, Some(key), entity.id).1 {
      var other :| other in keys && keys[other] == key;
      assert SameKey(meta.fields, table[other], table[entity.id]) && other != entity.id;
    }
  }

  lemma ScanEnd(table: Table, entities: seq<Entity>, meta: IndexMeta, p: Postings, keys: Keys)
    requires Scanning(table, entities, |entities|, meta, p, keys) && forall id | id in table :: table[id].id == id
    ensures Scanned(table, meta, Done, p)
  {
    hide Matches, KeyOf, InRange;
    forall id | id in table
      ensures id in keys
    {
      var j :| 0 <= j < |entities| && entities[j] == table[id];
      assert entities[j].id in keys && table[entities[j].id] == entities[j];
    }
    assert keys == TableKeys(table, meta.fields);
  }
}
