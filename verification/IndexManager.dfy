/** The indexes of a collection by name, and the dispatch of operations to the right kind of index. */
module IndexManager {
  import opened Wrappers
  import opened IndexKey
  import opened Postings
  import opened BTreeIndex
  import opened HashIndex

  datatype IndexType = BTREE | HASH

  datatype IndexRef = Ordered(tree: BTreeIndex) | Hashed(table: HashIndex)

  /** What an index amounts to: the object behind it is one of two implementations. */
  datatype IndexState = IndexState(comparing: Comparing, unique: bool, postings: Postings)

  function TypeOf(comparing: Comparing): IndexType {
    if comparing.ByOrder? then BTREE else HASH
  }

  function ComparingOf(indexType: IndexType, hasher: Hasher): (comparing: Comparing)
    ensures TypeOf(comparing) == indexType
  {
    match indexType
    case BTREE => ByOrder
    case HASH => ByHash(hasher)
  }

  type States = map<string, IndexState>

  /** An operation on the index of that name; nothing happens when there is none of the right kind. */
  function Dispatched(m: States, indexType: IndexType, name: string, op: Operation): (States, bool) {
    if name in m && TypeOf(m[name].comparing) == indexType then
      var (postings, ok) := Step(m[name].postings, m[name].unique, op);
      (m[name := m[name].(postings := postings)], ok)
    else (m, false)
  }

  ghost function ObjectOf(ref: IndexRef): object {
    match ref
    case Ordered(tree) => tree
    case Hashed(table) => table
  }

  ghost predicate IsValid(ref: IndexRef)
    reads ObjectOf(ref)
  {
    match ref
    case Ordered(tree) => tree.Valid()
    case Hashed(table) => table.Valid()
  }

  ghost function StateOf(ref: IndexRef): IndexState
    reads ObjectOf(ref)
  {
    match ref
    case Ordered(tree) => IndexState(ByOrder, tree.isUnique, tree.postings)
    case Hashed(table) => IndexState(ByHash(table.hasher), table.isUnique, table.postings)
  }

  /** The index of that name, if it is of that type, can tell the operation's keys from those it holds. */
  ghost predicate Admitted(m: States, indexType: IndexType, name: string, op: Operation) {
    name in m && TypeOf(m[name].comparing) == indexType ==> Admits(m[name].comparing, m[name].postings, op)
  }

  ghost predicate KeyFits(m: States, indexType: IndexType, name: string, key: Option<Key>) {
    name in m && TypeOf(m[name].comparing) == indexType ==> Fits(m[name].comparing, m[name].postings, key)
  }

  class IndexManager {
    var indexes: map<string, IndexRef>

    ghost function Objects(): set<object>
      reads this
    {
      set name | name in indexes :: ObjectOf(indexes[name])
    }

    ghost predicate Valid()
      reads this, Objects()
    {
      && this !in Objects()
      && (forall name | name in indexes :: IsValid(indexes[name]))
      && (forall a, b | a in indexes && b in indexes && a != b :: ObjectOf(indexes[a]) != ObjectOf(indexes[b]))
    }

    ghost function State(): States
      reads this, Objects()
    {
      map name | name in indexes :: StateOf(indexes[name])
    }

    constructor ()
      ensures Valid() && State() == map[] && indexes == map[]
    {
      indexes := map[];
    }

    method RegisterIndex(name: string, index: IndexRef) returns (ok: bool)
      requires Valid() && IsValid(index) && ObjectOf(index) !in Objects() && ObjectOf(index) != this
      modifies this
      ensures Valid() && ok == (name !in old(indexes)) && ok == (name !in old(State()))
      ensures Objects() == if ok then old(Objects()) + {ObjectOf(index)} else old(Objects())
      ensures indexes == if ok then old(indexes)[name := index] else old(indexes)
      ensures State() == if ok then old(State())[name := StateOf(index)] else old(State())
    {
      if name in indexes {
        return false;
      }
      indexes := indexes[name := index];
      assert forall other | other in old(indexes) :: other in indexes && indexes[other] == old(indexes)[other];
      assert indexes[name] == index;
      return true;
    }

    method UnregisterIndex(name: string) returns (ok: bool)
      requires Valid()
      modifies this
      ensures Valid() && ok == (name in old(indexes)) && ok == (name in old(State())) && Objects() <= old(Objects())
      ensures indexes == old(indexes) - {name} && State() == old(State()) - {name}
    {
      ok := name in indexes;
      indexes := indexes - {name};
    }

    predicate HasIndex(name: string)
      reads this
    {
      name in indexes
    }

    /** An operation on one index leaves the others alone. */
    twostate lemma OthersKept(name: string)
      requires old(Valid()) && indexes == old(indexes) && name in indexes
      requires forall o: object | o in old(Objects()) && o != ObjectOf(indexes[name]) :: unchanged(o)
      ensures forall other | other in indexes && other != name ::
                StateOf(indexes[other]) == old(StateOf(indexes[other])) && IsValid(indexes[other])
    {
      hide BTreeIndex.Valid, HashIndex.Valid;
      forall other | other in indexes && other != name
        ensures StateOf(indexes[other]) == old(StateOf(indexes[other])) && IsValid(indexes[other])
      {
        assert ObjectOf(indexes[other]) in old(Objects());
      }
    }

    method InsertComparableIndex(name: string, key: Option<Key>, id: nat) returns (ok: bool)
      requires Valid() && Admitted(State(), BTREE, name, Operation.Insert(key, id))
      modifies Objects()
      ensures Valid() && indexes == old(indexes)
      ensures (State(), ok) == Dispatched(old(State()), BTREE, name, Operation.Insert(key, id))
    {
      hide BTreeIndex.Valid, HashIndex.Valid, Inserted, Removed, Updated, Separates;
      if name !in indexes || !indexes[name].Ordered? {
        return false;
      }
      var tree := indexes[name].tree;
      ghost var before := State();
      ok := tree.Insert(key, id);
      OthersKept(name);
      assert State() == before[name := StateOf(indexes[name])];
    }

    method RemoveComparableIndex(name: string, key: Option<Key>, id: nat) returns (ok: bool)
      requires Valid() && Admitted(State(), BTREE, name, Operation.Remove(key, id))
      modifies Objects()
      ensures Valid() && indexes == old(indexes)
      ensures (State(), ok) == Dispatched(old(State()), BTREE, name, Operation.Remove(key, id))
    {
      hide BTreeIndex.Valid, HashIndex.Valid, Inserted, Removed, Updated, Separates;
      if name !in indexes || !indexes[name].Ordered? {
        return false;
      }
      var tree := indexes[name].tree;
      ghost var before := State();
      ok := tree.Remove(key, id);
      OthersKept(name);
      assert State() == before[name := StateOf(indexes[name])];
    }

    method UpdateComparableIndex(name: string, oldKey: Option<Key>, newKey: Option<Key>, id: nat) returns (ok: bool)
      requires Valid() && Admitted(State(), BTREE, name, Operation.Update(oldKey, newKey, id))
      modifies Objects()
      ensures Valid() && indexes == old(indexes)
      ensures (State(), ok) == Dispatched(old(State()), BTREE, name, Operation.Update(oldKey, newKey, id))
    {
      hide BTreeIndex.Valid, HashIndex.Valid, Inserted, Removed, Updated, Separates;
      if name !in indexes || !indexes[name].Ordered? {
        return false;
      }
      var tree := indexes[name].tree;
      ghost var before := State();
      ok := tree.Update(oldKey, newKey, id);
      OthersKept(name);
      assert State() == before[name := StateOf(indexes[name])];
    }

    method SearchComparableIndexEqual(name: string, key: Option<Key>) returns (ids: seq<nat>)
      requires Valid() && KeyFits(State(), BTREE, name, key)
      ensures ids == if name in State() && TypeOf(State()[name].comparing) == BTREE
                     then Found(State()[name].postings, key) else []
    {
      hide BTreeIndex.Valid, HashIndex.Valid, Separates;
      if name !in indexes || !indexes[name].Ordered? {
        return [];
      }
      ids := indexes[name].tree.SearchEqual(key);
    }

    method SearchComparableIndexBetween(name: string, left: Option<Key>, right: Option<Key>) returns (ids: seq<nat>)
      requires Valid() && KeyFits(State(), BTREE, name, left) && KeyFits(State(), BTREE, name, right)
      requires name in indexes && indexes[name].Ordered? && left.Some? && right.Some? ==>
                 forall i | 0 <= i < |indexes[name].tree.entries| ::
                   var key := indexes[name].tree.entries[i].key;
                   KeyCompare(key, left.value) < 0 ==> KeyCompare(key, right.value) <= 0
      ensures ids == if name in indexes && indexes[name].Ordered? && left.Some? && right.Some?
                     then Select(indexes[name].tree.entries, Between(left.value, right.value)) else []
    {
      hide BTreeIndex.Valid, HashIndex.Valid, Separates, KeyCompare, Select;
      if name !in indexes || !indexes[name].Ordered? {
        return [];
      }
      ids := indexes[name].tree.SearchBetween(left, right);
    }

    method InsertHashableIndex(name: string, key: Option<Key>, id: nat) returns (ok: bool)
      requires Valid() && Admitted(State(), HASH, name, Operation.Insert(key, id))
      modifies Objects()
      ensures Valid() && indexes == old(indexes)
      ensures (State(), ok) == Dispatched(old(State()), HASH, name, Operation.Insert(key, id))
    {
      hide BTreeIndex.Valid, HashIndex.Valid, Inserted, Removed, Updated, Separates;
      if name !in indexes || !indexes[name].Hashed? {
        return false;
      }
      var table := indexes[name].table;
      ghost var before := State();
      ok := table.Insert(key, id);
      OthersKept(name);
      assert State() == before[name := StateOf(indexes[name])];
    }

    method RemoveHashableIndex(name: string, key: Option<Key>, id: nat) returns (ok: bool)
      requires Valid() && Admitted(State(), HASH, name, Operation.Remove(key, id))
      modifies Objects()
      ensures Valid() && indexes == old(indexes)
      ensures (State(), ok) == Dispatched(old(State()), HASH, name, Operation.Remove(key, id))
    {
      hide BTreeIndex.Valid, HashIndex.Valid, Inserted, Removed, Updated, Separates;
      if name !in indexes || !indexes[name].Hashed? {
        return false;
      }
      var table := indexes[name].table;
      ghost var before := State();
      ok := table.Remove(key, id);
      OthersKept(name);
      assert State() == before[name := StateOf(indexes[name])];
    }

    method UpdateHashableIndex(name: string, oldKey: Option<Key>, newKey: Option<Key>, id: nat) returns (ok: bool)
      requires Valid() && Admitted(State(), HASH, name, Operation.Update(oldKey, newKey, id))
      modifies Objects()
      ensures Valid() && indexes == old(indexes)
      ensures (State(), ok) == Dispatched(old(State()), HASH, name, Operation.Update(oldKey, newKey, id))
    {
      hide BTreeIndex.Valid, HashIndex.Valid, Inserted, Removed, Updated, Separates;
      if name !in indexes || !indexes[name].Hashed? {
        return false;
      }
      var table := indexes[name].table;
      ghost var before := State();
      ok := table.Update(oldKey, newKey, id);
      OthersKept(name);
      assert State() == before[name := StateOf(indexes[name])];
    }

    method SearchHashableIndexEqual(name: string, key: Option<Key>) returns (ids: seq<nat>)
      requires Valid() && KeyFits(State(), HASH, name, key)
      ensures ids == if name in State() && TypeOf(State()[name].comparing) == HASH
                     then Found(State()[name].postings, key) else []
    {
      hide BTreeIndex.Valid, HashIndex.Valid, Separates;
      if name !in indexes || !indexes[name].Hashed? {
        return [];
      }
      ids := indexes[name].table.SearchEqual(key);
    }
  }
}
