/** The two kinds of index answer alike, whatever is done to them. */
module Equivalence {
  import opened Wrappers
  import opened IndexKey
  import opened Postings
  import opened BTreeIndex
  import opened HashIndex

  /** The booleans a run of operations answers, one after another. */
  function Answers(p: Postings, unique: bool, ops: seq<Operation>): seq<bool>
    decreases ops
  {
    if ops == [] then []
    else
      var (q, ok) := Step(p, unique, ops[0]);
      [ok] + Answers(q, unique, ops[1..])
  }

  function KeyIn(key: Option<Key>): set<Key> {
    if key.Some? then {key.value} else {}
  }

  function KeysIn(op: Operation): set<Key> {
    match op
    case Insert(key, _) => KeyIn(key)
    case Remove(key, _) => KeyIn(key)
    case Update(oldKey, newKey, _) => KeyIn(oldKey) + KeyIn(newKey)
  }

  function KeysOf(ops: seq<Operation>): set<Key> {
    if ops == [] then {} else KeysIn(ops[0]) + KeysOf(ops[1..])
  }

  /** An index that can tell the given keys apart admits every operation that uses no others. */
  lemma KnownKeysAdmitted(comparing: Comparing, known: set<Key>, p: Postings, op: Operation)
    requires Separates(comparing, known) && p.Keys <= known && KeysIn(op) <= known
    ensures Admits(comparing, p, op)
  {
    hide Separates;
    forall q: Postings, key: Option<Key> | q.Keys <= known && KeyIn(key) <= known
      ensures Fits(comparing, q, key)
    {
      if key.Some? {
        SeparatesFewer(comparing, known, q.Keys + {key.value});
      }
    }
  }

  lemma KeysStayKnown(known: set<Key>, p: Postings, unique: bool, op: Operation)
    requires p.Keys <= known && KeysIn(op) <= known
    ensures Step(p, unique, op).0.Keys <= known
  {
  }

  method RunOnTree(tree: BTreeIndex, ops: seq<Operation>, ghost known: set<Key>) returns (oks: seq<bool>)
    requires tree.Valid() && Separates(ByOrder, known) && tree.postings.Keys <= known && KeysOf(ops) <= known
    modifies tree
    ensures tree.Valid() && tree.isUnique == old(tree.isUnique) && tree.postings.Keys <= known
    ensures tree.postings == Run(old(tree.postings), tree.isUnique, ops)
    ensures oks == Answers(old(tree.postings), tree.isUnique, ops)
  {
    hide BTreeIndex.Valid, Separates, Inserted, Removed, Updated;
    oks := [];
    ghost var unique, start := tree.isUnique, tree.postings;
    assert ops[0..] == ops;
    for i := 0 to |ops|
      invariant tree.Valid() && tree.isUnique == unique && tree.postings.Keys <= known && KeysOf(ops[i..]) <= known
      invariant Run(tree.postings, unique, ops[i..]) == Run(start, unique, ops)
      invariant oks + Answers(tree.postings, unique, ops[i..]) == Answers(start, unique, ops)
    {
      assert ops[i..][1..] == ops[i + 1..];
      KnownKeysAdmitted(ByOrder, known, tree.postings, ops[i]);
      KeysStayKnown(known, tree.postings, unique, ops[i]);
      ghost var rest := Answers(Step(tree.postings, unique, ops[i]).0, unique, ops[i + 1..]);
      var ok: bool;
      match ops[i] {
        case Insert(key, id) => ok := tree.Insert(key, id);
        case Remove(key, id) => ok := tree.Remove(key, id);
        case Update(oldKey, newKey, id) => ok := tree.Update(oldKey, newKey, id);
      }
      Regroup(oks, [ok], rest);
      oks := oks + [ok];
    }
  }

  method RunOnTable(table: HashIndex, ops: seq<Operation>, ghost known: set<Key>) returns (oks: seq<bool>)
    requires table.Valid() && Separates(ByHash(table.hasher), known)
    requires table.postings.Keys <= known && KeysOf(ops) <= known
    modifies table
    ensures table.Valid() && table.isUnique == old(table.isUnique) && table.postings.Keys <= known
    ensures table.postings == Run(old(table.postings), table.isUnique, ops)
    ensures oks == Answers(old(table.postings), table.isUnique, ops)
  {
    hide HashIndex.Valid, Separates, Inserted, Removed, Updated;
    oks := [];
    ghost var unique, start := table.isUnique, table.postings;
    assert ops[0..] == ops;
    for i := 0 to |ops|
      invariant table.Valid() && table.isUnique == unique && table.postings.Keys <= known && KeysOf(ops[i..]) <= known
      invariant Run(table.postings, unique, ops[i..]) == Run(start, unique, ops)
      invariant oks + Answers(table.postings, unique, ops[i..]) == Answers(start, unique, ops)
    {
      assert ops[i..][1..] == ops[i + 1..];
      KnownKeysAdmitted(ByHash(table.hasher), known, table.postings, ops[i]);
      KeysStayKnown(known, table.postings, unique, ops[i]);
      ghost var rest := Answers(Step(table.postings, unique, ops[i]).0, unique, ops[i + 1..]);
      var ok: bool;
      match ops[i] {
        case Insert(key, id) => ok := table.Insert(key, id);
        case Remove(key, id) => ok := table.Remove(key, id);
        case Update(oldKey, newKey, id) => ok := table.Update(oldKey, newKey, id);
      }
      Regroup(oks, [ok], rest);
      oks := oks + [ok];
    }
  }

  /**
   * After any run of operations from empty, an ordered and a hash index have given the same answers, and they
   * find the same entities under every key.
   */
  method AnswerAlike(ops: seq<Operation>, unique: bool, hasher: Hasher, key: Key)
    returns (treeOks: seq<bool>, tableOks: seq<bool>, treeIds: seq<nat>, tableIds: seq<nat>)
    requires Separates(ByOrder, KeysOf(ops) + {key}) && Separates(ByHash(hasher), KeysOf(ops) + {key})
    ensures treeOks == tableOks == Answers(map[], unique, ops)
    ensures treeIds == tableIds == Found(Run(map[], unique, ops), Some(key))
  {
    hide BTreeIndex.Valid, HashIndex.Valid, Separates, Run, Answers, KeysOf;
    ghost var known := KeysOf(ops) + {key};
    var tree := new BTreeIndex("", unique);
    var table := new HashIndex("", unique, hasher);
    treeOks := RunOnTree(tree, ops, known);
    tableOks := RunOnTable(table, ops, known);
    SeparatesFewer(ByOrder, known, tree.postings.Keys + {key});
    SeparatesFewer(ByHash(hasher), known, table.postings.Keys + {key});
    treeIds := tree.SearchEqual(Some(key));
    tableIds := table.SearchEqual(Some(key));
  }
}
