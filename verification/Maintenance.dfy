/** Keeping every index of a collection in step with its table. */
module Maintenance {
  import opened Wrappers
  import opened IndexKey
  import opened Postings
  import opened IndexManager
  import opened Storage

  datatype IndexMeta = IndexMeta(name: string, indexType: IndexType, unique: bool, fields: seq<nat>)

  type Table = map<nat, Entity>

  predicate InRange(fields: seq<nat>, values: seq<FieldValue>) {
    forall i | 0 <= i < |fields| :: fields[i] < |values|
  }

  function KeyOf(fields: seq<nat>, values: seq<FieldValue>): (key: Key)
    requires InRange(fields, values)
    ensures |key| == |fields| && forall i | 0 <= i < |key| :: key[i] == values[fields[i]]
  {
    seq(|fields|, i requires 0 <= i < |fields| => values[fields[i]])
  }

  ghost predicate Wide(table: Table, fields: seq<nat>) {
    forall id | id in table :: InRange(fields, table[id].values)
  }

  function TableKeys(table: Table, fields: seq<nat>): (keys: Keys)
    requires Wide(table, fields)
    ensures keys.Keys == table.Keys && forall id | id in table :: keys[id] == KeyOf(fields, table[id].values)
  {
    map id | id in table :: KeyOf(fields, table[id].values)
  }

  /** The keys of the entities that have all the fields. */
  ghost function KeySet(table: Table, fields: seq<nat>): set<Key> {
    set id | id in table && InRange(fields, table[id].values) :: KeyOf(fields, table[id].values)
  }

  /** The index the declaration stands for can tell the keys of the table apart. */
  ghost predicate Told(table: Table, meta: IndexMeta, hasher: Hasher) {
    Separates(ComparingOf(meta.indexType, hasher), KeySet(table, meta.fields))
  }

  /** Columns of one type each, NULL counting as a type, suit both kinds of index; other columns do not matter. */
  lemma OneTypeColumnsAreTold(table: Table, meta: IndexMeta, hasher: Hasher, shape: seq<Kind>)
    requires |shape| == |meta.fields|
    requires forall id, i | id in table && 0 <= i < |meta.fields| && meta.fields[i] < |table[id].values| ::
               KindOf(table[id].values[meta.fields[i]]) == shape[i]
    ensures Told(table, meta, hasher)
  {
    hide Separates;
    forall key | key in KeySet(table, meta.fields)
      ensures Conforms(key, shape)
    {
      var id :| id in table && InRange(meta.fields, table[id].values) && key == KeyOf(meta.fields, table[id].values);
    }
    OneShapeSeparates(ComparingOf(meta.indexType, hasher), KeySet(table, meta.fields), shape);
  }

  /** What happens to the table: an entity comes, goes, or gets new values. */
  datatype Change = Added(entity: Entity) | Deleted(entity: Entity) | Changed(before: Entity, entity: Entity)

  predicate Keyed(change: Change, fields: seq<nat>) {
    InRange(fields, change.entity.values) && (change.Changed? ==> InRange(fields, change.before.values))
  }

  /** The operation a change asks of an index. */
  function OperationFor(change: Change, fields: seq<nat>): Operation
    requires Keyed(change, fields)
  {
    match change
    case Added(entity) => Insert(Some(KeyOf(fields, entity.values)), entity.id)
    case Deleted(entity) => Remove(Some(KeyOf(fields, entity.values)), entity.id)
    case Changed(before, entity) =>
      Update(Some(KeyOf(fields, before.values)), Some(KeyOf(fields, entity.values)), entity.id)
  }

  ghost predicate Applicable(table: Table, change: Change) {
    match change
    case Added(entity) => entity.id !in table
    case Deleted(entity) => entity.id in table && table[entity.id] == entity
    case Changed(before, entity) => before.id == entity.id && before.id in table && table[before.id] == before
  }

  function After(table: Table, change: Change): Table {
    match change
    case Added(entity) => table[entity.id := entity]
    case Deleted(entity) => table - {entity.id}
    case Changed(_, entity) => table[entity.id := entity]
  }

  /** All indexes took a change, one refused it, or reading a field of the entity threw. */
  datatype Upkeep = Done | Refused | NoSuchField

  /** Index by index, stopping at the first that refuses or throws; those before it keep the change. */
  function Applied(states: States, change: Change, list: seq<IndexMeta>): (States, Upkeep)
    decreases list
  {
    if list == [] then (states, Done)
    else if !Keyed(change, list[0].fields) then (states, NoSuchField)
    else
      var (now, ok) := Dispatched(states, list[0].indexType, list[0].name, OperationFor(change, list[0].fields));
      if ok then Applied(now, change, list[1..]) else (now, Refused)
  }

  /** Each index that gets to its operation can tell the operation's keys from those it holds. */
  ghost predicate Supported(states: States, change: Change, list: seq<IndexMeta>)
    decreases list
  {
    list != [] && Keyed(change, list[0].fields) ==>
      var op := OperationFor(change, list[0].fields);
      var (now, ok) := Dispatched(states, list[0].indexType, list[0].name, op);
      Admitted(states, list[0].indexType, list[0].name, op) && (ok ==> Supported(now, change, list[1..]))
  }

  /**
   * An index agrees with the table: it is of the declared kind, can tell the table's keys apart, and holds what a
   * scan would put there.
   */
  ghost predicate AgreesOn(table: Table, meta: IndexMeta, hasher: Hasher, states: States) {
    && Wide(table, meta.fields) && Told(table, meta, hasher) && meta.name in states
    && states[meta.name].comparing == ComparingOf(meta.indexType, hasher) && states[meta.name].unique == meta.unique
    && Matches(states[meta.name].postings, TableKeys(table, meta.fields))
  }

  /** The index is unique and another entity already has the key the change brings. */
  ghost predicate Clash(table: Table, change: Change, meta: IndexMeta) {
    && meta.unique && !change.Deleted?
    && exists id :: id in table && id != change.entity.id && SameKey(meta.fields, table[id], change.entity)
  }

  ghost predicate SameKey(fields: seq<nat>, e: Entity, f: Entity) {
    InRange(fields, e.values) && InRange(fields, f.values) && KeyOf(fields, e.values) == KeyOf(fields, f.values)
  }

  lemma KeysAfter(table: Table, change: Change, fields: seq<nat>)
    requires Wide(table, fields) && Keyed(change, fields) && Applicable(table, change)
    ensures Wide(After(table, change), fields)
    ensures TableKeys(After(table, change), fields) ==
            if change.Deleted? then TableKeys(table, fields) - {change.entity.id}
            else TableKeys(table, fields)[change.entity.id := KeyOf(fields, change.entity.values)]
  {
  }

  lemma ClashInKeys(table: Table, change: Change, meta: IndexMeta)
    requires Wide(table, meta.fields) && Keyed(change, meta.fields) && Applicable(table, change)
    ensures var keys, key := TableKeys(table, meta.fields), KeyOf(meta.fields, change.entity.values);
            && (Clash(table, change, meta)
                <==> && meta.unique && !change.Deleted?
                     && exists i :: i in keys && i != change.entity.id && keys[i] == key)
            && (change.Added? ==> change.entity.id !in keys)
            && (!change.Added? ==>
                 && change.entity.id in keys
                 && keys[change.entity.id]
                    == KeyOf(meta.fields, if change.Changed? then change.before.values else change.entity.values))
  {
    var keys, key := TableKeys(table, meta.fields), KeyOf(meta.fields, change.entity.values);
    if i :| i in keys && i != change.entity.id && keys[i] == key {
      assert i in table && SameKey(meta.fields, table[i], change.entity);
    }
    if Clash(table, change, meta) {
      var i :| i in table && i != change.entity.id && SameKey(meta.fields, table[i], change.entity);
      assert i in keys && keys[i] == key;
    }
  }

  /** A matching index holds the keys of the table. */
  lemma MatchingKeys(p: Postings, table: Table, fields: seq<nat>)
    requires Wide(table, fields) && Matches(p, TableKeys(table, fields))
    ensures p.Keys == KeySet(table, fields)
  {
    var keys := TableKeys(table, fields);
    forall key | key in p
      ensures key in KeySet(table, fields)
    {
      var id := p[key][0];
      assert id in p[key] && keys[id] == key;
    }
  }

  lemma KeySetHas(table: Table, fields: seq<nat>, id: nat)
    requires id in table && InRange(fields, table[id].values)
    ensures KeyOf(fields, table[id].values) in KeySet(table, fields)
  {
  }

  lemma KeySetGrows(table: Table, change: Change, fields: seq<nat>)
    requires Applicable(table, change) && change.Added? && Keyed(change, fields)
    ensures KeySet(After(table, change), fields)
         == KeySet(table, fields) + {KeyOf(fields, change.entity.values)}
  {
    hide KeyOf;
    var after := After(table, change);
    forall id | id in table && InRange(fields, table[id].values)
      ensures KeyOf(fields, table[id].values) in KeySet(after, fields)
    {
      assert after[id] == table[id];
      KeySetHas(after, fields, id);
    }
    KeySetHas(after, fields, change.entity.id);
  }

  /** Whatever the change, the index can tell its keys from those it holds, if it can tell the new table's apart. */
  lemma ChangeAdmitted(table: Table, change: Change, meta: IndexMeta, hasher: Hasher, p: Postings)
    requires Applicable(table, change) && Keyed(change, meta.fields) && Wide(table, meta.fields)
    requires Told(table, meta, hasher) && Told(After(table, change), meta, hasher)
    requires Matches(p, TableKeys(table, meta.fields))
    ensures Admits(ComparingOf(meta.indexType, hasher), p, OperationFor(change, meta.fields))
  {
    hide Separates, ComparingOf, Matches, KeyOf, KeySet, Removed;
    var c, id := ComparingOf(meta.indexType, hasher), change.entity.id;
    var keys, known := TableKeys(table, meta.fields), KeySet(table, meta.fields);
    MatchingKeys(p, table, meta.fields);
    if change.Added? {
      KeySetGrows(table, change, meta.fields);
    } else {
      KeySetHas(table, meta.fields, id);
      assert p.Keys + {keys[id]} == known;
      if change.Changed? {
        var q := Removed(p, Some(keys[id]), id).0;
        RemoveMatches(p, keys, id);
        var others := After(table, Deleted(change.before));
        assert TableKeys(others, meta.fields) == keys - {id};
        MatchingKeys(q, others, meta.fields);
        KeySetGrows(others, Added(change.entity), meta.fields);
        assert After(others, Added(change.entity)) == After(table, change);
      }
    }
  }

  /** One index takes the change unless that would break its uniqueness, and then agrees with the new table. */
  lemma IndexFollows(table: Table, change: Change, meta: IndexMeta, hasher: Hasher, states: States)
    requires Applicable(table, change) && AgreesOn(table, meta, hasher, states) && Keyed(change, meta.fields)
    requires Told(After(table, change), meta, hasher)
    ensures Admitted(states, meta.indexType, meta.name, OperationFor(change, meta.fields))
    ensures var (now, ok) := Dispatched(states, meta.indexType, meta.name, OperationFor(change, meta.fields));
            && (ok <==> !Clash(table, change, meta))
            && (ok ==> AgreesOn(After(table, change), meta, hasher, now))
            && now.Keys == states.Keys && forall name | name in states && name != meta.name :: now[name] == states[name]
  {
    hide Matches, Inserted, Removed, Updated, KeyOf, Clash, Told, Admits;
    var p, keys := states[meta.name].postings, TableKeys(table, meta.fields);
    var key := KeyOf(meta.fields, change.entity.values);
    KeysAfter(table, change, meta.fields);
    ClashInKeys(table, change, meta);
    ChangeAdmitted(table, change, meta, hasher, p);
    match change
    case Added(entity) => InsertMatches(p, meta.unique, keys, key, entity.id);
    case Deleted(entity) => RemoveMatches(p, keys, entity.id);
    case Changed(before, entity) => UpdateMatches(p, meta.unique, keys, entity.id, key);
  }

  ghost predicate DistinctNames(list: seq<IndexMeta>) {
    forall i, j | 0 <= i < j < |list| :: list[i].name != list[j].name
  }

  /** The index takes the change: the entity has its fields, and no other entity has the key in a unique index. */
  ghost predicate Takes(table: Table, change: Change, meta: IndexMeta) {
    Keyed(change, meta.fields) && !Clash(table, change, meta)
  }

  lemma UpkeepTurn(states: States, change: Change, meta: IndexMeta, rest: seq<IndexMeta>)
    ensures Applied(states, change, [meta] + rest) ==
            if !Keyed(change, meta.fields) then (states, NoSuchField)
            else var (now, ok) := Dispatched(states, meta.indexType, meta.name, OperationFor(change, meta.fields));
                 if ok then Applied(now, change, rest) else (now, Refused)
    ensures Supported(states, change, [meta] + rest) <==> Keyed(change, meta.fields) ==>
              var op := OperationFor(change, meta.fields);
              var (now, ok) := Dispatched(states, meta.indexType, meta.name, op);
              Admitted(states, meta.indexType, meta.name, op) && (ok ==> Supported(now, change, rest))
  {
    hide Dispatched, Admitted;
    assert ([meta] + rest)[1..] == rest;
  }

  lemma NothingToDo(states: States, change: Change)
    ensures Applied(states, change, []) == (states, Done) && Supported(states, change, [])
  {
  }

  /** All listed indexes take the change exactly when each does by itself, and then agree with the new table. */
  lemma {:induction false} IndexesFollow(
    table: Table, change: Change, list: seq<IndexMeta>, hasher: Hasher, states: States)
    requires Applicable(table, change) && DistinctNames(list)
    requires forall m | m in list :: AgreesOn(table, m, hasher, states) && Told(After(table, change), m, hasher)
    ensures Supported(states, change, list)
    ensures var (now, result) := Applied(states, change, list);
            && (result.Done? <==> forall m | m in list :: Takes(table, change, m))
            && (result.Refused? ==> exists m :: m in list && Clash(table, change, m))
            && (result.NoSuchField? ==> exists m :: m in list && !Keyed(change, m.fields))
            && (result.Done? ==> forall m | m in list :: AgreesOn(After(table, change), m, hasher, now))
            && now.Keys == states.Keys
            && forall name | name in states && (forall m | m in list :: m.name != name) :: now[name] == states[name]
    decreases list
  {
    hide AgreesOn, Clash, Dispatched, Keyed, Applicable, After, Told, Admitted, Applied, Supported;
    if list == [] {
      NothingToDo(states, change);
    } else if !Keyed(change, list[0].fields) {
      assert list == [list[0]] + list[1..];
      UpkeepTurn(states, change, list[0], list[1..]);
      assert list[0] in list && !Takes(table, change, list[0]);
    } else {
      var m, rest := list[0], list[1..];
      assert list == [m] + rest;
      UpkeepTurn(states, change, m, rest);
      IndexFollows(table, change, m, hasher, states);
      var (next, ok) := Dispatched(states, m.indexType, m.name, OperationFor(change, m.fields));
      assert Takes(table, change, m) <==> ok;
      if ok {
        forall other | other in rest
          ensures AgreesOn(table, other, hasher, next) && other.name != m.name
        {
          var i :| 0 <= i < |rest| && rest[i] == other;
          assert list[i + 1] == other;
          StillAgrees(table, other, hasher, states, next);
        }
        IndexesFollow(table, change, rest, hasher, next);
        var now := Applied(next, change, rest).0;
        AgreesKnowsName(After(table, change), m, hasher, next);
        assert forall other | other in rest :: other.name != m.name;
        StillAgrees(After(table, change), m, hasher, next, now);
      }
    }
  }

  lemma AgreesKnowsName(table: Table, meta: IndexMeta, hasher: Hasher, states: States)
    requires AgreesOn(table, meta, hasher, states)
    ensures meta.name in states
  {
  }

  lemma StillAgrees(table: Table, meta: IndexMeta, hasher: Hasher, states: States, now: States)
    requires AgreesOn(table, meta, hasher, states)
    requires meta.name in states && meta.name in now ==> now[meta.name] == states[meta.name]
    requires meta.name in states ==> meta.name in now
    ensures AgreesOn(table, meta, hasher, now)
  {
    hide Matches, Told;
  }

  /** Maintenance that is not done stops at one index: those before it took the change, those after it are as before. */
  lemma {:induction false} StopsAtOne(states: States, change: Change, list: seq<IndexMeta>)
    requires DistinctNames(list) && !Applied(states, change, list).1.Done?
    ensures exists i :: 0 <= i < |list| && StoppedAt(states, change, list, i)
    decreases list
  {
    hide Dispatched, Keyed;
    if !Keyed(change, list[0].fields) {
      NothingBefore(states, change, list);
    } else {
      var m, rest := list[0], list[1..];
      assert list == [m] + rest;
      var (next, ok) := Dispatched(states, m.indexType, m.name, OperationFor(change, m.fields));
      DispatchElsewhere(states, m.indexType, m.name, OperationFor(change, m.fields));
      if ok {
        StopsAtOne(next, change, rest);
        var i :| 0 <= i < |rest| && StoppedAt(next, change, rest, i);
        assert list[..i + 1][1..] == rest[..i];
        forall j | i + 1 < j < |list|
          ensures list[j].name in states ==>
                    list[j].name in Applied(states, change, list).0
                    && Applied(states, change, list).0[list[j].name] == states[list[j].name]
        {
          assert list[j] == rest[j - 1];
        }
        assert StoppedAt(states, change, list, i + 1);
      } else {
        NothingBefore(states, change, list);
      }
    }
  }

  ghost predicate StoppedAt(states: States, change: Change, list: seq<IndexMeta>, i: nat)
    requires i < |list|
  {
    && Applied(states, change, list[..i]).1.Done?
    && forall j | i < j < |list| ::
         list[j].name in states ==>
           list[j].name in Applied(states, change, list).0
           && Applied(states, change, list).0[list[j].name] == states[list[j].name]
  }

  lemma DispatchElsewhere(states: States, indexType: IndexType, name: string, op: Operation)
    ensures var now := Dispatched(states, indexType, name, op).0;
            && now.Keys == states.Keys && forall other | other in states && other != name :: now[other] == states[other]
  {
    hide Step;
  }

  lemma NothingBefore(states: States, change: Change, list: seq<IndexMeta>)
    requires DistinctNames(list) && list != []
    requires Keyed(change, list[0].fields) ==>
               !Dispatched(states, list[0].indexType, list[0].name, OperationFor(change, list[0].fields)).1
    ensures StoppedAt(states, change, list, 0)
  {
    hide Dispatched, Keyed;
    assert list[..0] == [];
    if Keyed(change, list[0].fields) {
      DispatchElsewhere(states, list[0].indexType, list[0].name, OperationFor(change, list[0].fields));
    }
  }

  /** The key has the fields' values in the order of the declaration, not of the entity. */
  lemma KeyInDeclaredOrder(a: FieldValue, b: FieldValue, c: FieldValue)
    ensures KeyOf([2, 0], [a, b, c]) == [c, a]
  {
  }

  // Whole runs.

  /** A change together with the indexes it is applied to, in the order the collection lists them. */
  datatype Turn = Turn(change: Change, list: seq<IndexMeta>)

  type Metas = map<string, IndexMeta>

  /** All indexes, each once, in any order. */
  ghost predicate ListsAll(list: seq<IndexMeta>, metas: Metas) {
    && DistinctNames(list) && (forall m | m in list :: m.name in metas && metas[m.name] == m)
    && forall name | name in metas :: metas[name] in list
  }

  ghost predicate Named(metas: Metas) {
    forall name | name in metas :: metas[name].name == name
  }

  ghost predicate Agrees(table: Table, metas: Metas, hasher: Hasher, states: States) {
    Named(metas) && forall name | name in metas :: AgreesOn(table, metas[name], hasher, states)
  }

  /** The change fits the table, and the indexes can tell the new table's keys apart. */
  ghost predicate Suits(table: Table, metas: Metas, hasher: Hasher, change: Change) {
    Applicable(table, change) && forall name | name in metas :: Told(After(table, change), metas[name], hasher)
  }

  /** Each change suits the table it meets and is applied to every index. */
  ghost predicate Proper(table: Table, metas: Metas, hasher: Hasher, turns: seq<Turn>)
    decreases turns
  {
    turns != [] ==>
      && Suits(table, metas, hasher, turns[0].change) && ListsAll(turns[0].list, metas)
      && Proper(After(table, turns[0].change), metas, hasher, turns[1..])
  }

  /** What the containers behind the indexes ask of their callers holds at every step of a run. */
  ghost predicate SupportedRun(states: States, turns: seq<Turn>)
    decreases turns
  {
    turns != [] ==>
      && Supported(states, turns[0].change, turns[0].list)
      && var (now, result) := Applied(states, turns[0].change, turns[0].list);
         result.Done? ==> SupportedRun(now, turns[1..])
  }

  ghost predicate AllTake(table: Table, metas: Metas, change: Change) {
    forall name | name in metas :: Takes(table, change, metas[name])
  }

  ghost predicate AllTakeAll(table: Table, metas: Metas, turns: seq<Turn>)
    decreases turns
  {
    turns != [] ==>
      && AllTake(table, metas, turns[0].change)
      && AllTakeAll(After(table, turns[0].change), metas, turns[1..])
  }

  function TableAfter(table: Table, turns: seq<Turn>): Table
    decreases turns
  {
    if turns == [] then table else TableAfter(After(table, turns[0].change), turns[1..])
  }

  /** Applying the changes one after another, as long as all succeed. */
  function AppliedRun(states: States, turns: seq<Turn>): (States, Upkeep)
    decreases turns
  {
    if turns == [] then (states, Done)
    else
      var (now, result) := Applied(states, turns[0].change, turns[0].list);
      if result.Done? then AppliedRun(now, turns[1..]) else (now, result)
  }

  lemma TurnAgrees(table: Table, metas: Metas, hasher: Hasher, states: States, change: Change, list: seq<IndexMeta>)
    requires Agrees(table, metas, hasher, states) && Suits(table, metas, hasher, change) && ListsAll(list, metas)
    ensures Supported(states, change, list)
    ensures var (now, result) := Applied(states, change, list);
            && (result.Done? <==> AllTake(table, metas, change))
            && (result.Refused? ==> exists name :: name in metas && Clash(table, change, metas[name]))
            && (result.NoSuchField? ==> exists name :: name in metas && !Keyed(change, metas[name].fields))
            && (result.Done? ==> Agrees(After(table, change), metas, hasher, now))
  {
    hide AgreesOn, Clash, Keyed, Applicable, After, Applied, DistinctNames, Told, Supported, Takes;
    forall m | m in list
      ensures AgreesOn(table, m, hasher, states) && Told(After(table, change), m, hasher)
    {
      assert metas[m.name] == m;
    }
    IndexesFollow(table, change, list, hasher, states);
    forall name | name in metas
      ensures metas[name] in list
    {
    }
  }

  /**
   * From agreement on, every run of changes keeps all indexes agreeing with the table as long as all steps
   * succeed, and all do exactly when each index takes each change: the entity has its fields, and no other entity
   * holds its key in a unique index.
   */
  lemma {:induction false} RunAgrees(table: Table, metas: Metas, hasher: Hasher, states: States, turns: seq<Turn>)
    requires Agrees(table, metas, hasher, states) && Proper(table, metas, hasher, turns)
    ensures SupportedRun(states, turns)
    ensures var (now, result) := AppliedRun(states, turns);
            && (result.Done? <==> AllTakeAll(table, metas, turns))
            && (result.Done? ==> Agrees(TableAfter(table, turns), metas, hasher, now))
    decreases turns
  {
    hide AllTake, Suits, After, Applied, ListsAll, Agrees, Supported;
    if turns != [] {
      TurnAgrees(table, metas, hasher, states, turns[0].change, turns[0].list);
      var (now, result) := Applied(states, turns[0].change, turns[0].list);
      if result.Done? {
        RunAgrees(After(table, turns[0].change), metas, hasher, now, turns[1..]);
      }
    }
  }

  // Agreement says all there is to say: two indexes that agree with a table differ in posting order at most.

  lemma {:induction false} DistinctCounts(ids: seq<nat>, id: nat)
    requires Distinct(ids)
    ensures multiset(ids)[id] == if id in ids then 1 else 0
  {
    if ids != [] {
      assert ids == [ids[0]] + ids[1..];
      DistinctCounts(ids[1..], id);
      assert ids[0] !in ids[1..];
    }
  }

  lemma MatchesIsUnique(p: Postings, q: Postings, keys: Keys)
    requires Matches(p, keys) && Matches(q, keys)
    ensures p.Keys == q.Keys && forall key | key in p :: multiset(p[key]) == multiset(q[key])
  {
    HoldsAll(p, q, keys);
    HoldsAll(q, p, keys);
    forall key | key in p
      ensures multiset(p[key]) == multiset(q[key])
    {
      MatchingLookup(p, keys, key);
      MatchingLookup(q, keys, key);
      forall id: nat
        ensures multiset(p[key])[id] == multiset(q[key])[id]
      {
        DistinctCounts(p[key], id);
        DistinctCounts(q[key], id);
        assert id in Found(p, Some(key)) <==> id in Found(q, Some(key));
      }
    }
  }

  lemma HoldsAll(p: Postings, q: Postings, keys: Keys)
    requires Matches(p, keys) && Matches(q, keys)
    ensures forall key | key in p :: key in q
  {
    forall key | key in p
      ensures key in q
    {
      var id := p[key][0];
      assert id in p[key];
      assert keys[id] == key;
    }
  }
}
