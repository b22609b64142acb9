/**
 * Which ids stand under a key, and in which order, told from the history of operations alone: for each insertion,
 * whether a later removal has taken its id back.
 */
module PostingOrder {
  import opened Wrappers
  import opened IndexKey
  import opened Postings

  /** The ids inserted under the key that no later operation removed from it, in the order of their insertion. */
  function Surviving(ops: seq<Operation>, key: Key): seq<nat> {
    if ops == [] then []
    else
      (if ops[0].Insert? && ops[0].key == Some(key) && Remove(Some(key), ops[0].id) !in ops[1..]
       then [ops[0].id] else [])
      + Surviving(ops[1..], key)
  }

  /** The ids that none of the operations removes from the key, in order. */
  function Spared(ids: seq<nat>, ops: seq<Operation>, key: Key): seq<nat> {
    if ids == [] then []
    else (if Remove(Some(key), ids[0]) !in ops then [ids[0]] else []) + Spared(ids[1..], ops, key)
  }

  lemma {:induction false} SparedByNone(ids: seq<nat>, key: Key)
    ensures Spared(ids, [], key) == ids
  {
    if ids != [] {
      SparedByNone(ids[1..], key);
    }
  }

  lemma {:induction false} SparedJoins(a: seq<nat>, b: seq<nat>, ops: seq<Operation>, key: Key)
    ensures Spared(a + b, ops, key) == Spared(a, ops, key) + Spared(b, ops, key)
    decreases a
  {
    if a == [] {
      assert a + b == b;
    } else {
      assert (a + b)[1..] == a[1..] + b;
      SparedJoins(a[1..], b, ops, key);
    }
  }

  /** An operation spares what it does not remove. */
  lemma {:induction false} SparedFirst(ids: seq<nat>, op: Operation, ops: seq<Operation>, key: Key)
    ensures Spared(ids, [op] + ops, key)
         == Spared(if op.Remove? && op.key == Some(key) then Without(ids, op.id) else ids, ops, key)
    decreases ids
  {
    if ids != [] {
      SparedFirst(ids[1..], op, ops, key);
    }
  }

  ghost predicate InsertsAndRemoves(ops: seq<Operation>) {
    forall op | op in ops :: !op.Update?
  }

  /** What one operation does to the list under a key. */
  lemma StepTells(p: Postings, op: Operation, key: Key)
    requires Tidy(p, false) && !op.Update?
    ensures Found(Step(p, false, op).0, Some(key)) ==
            if op.Insert? && op.key == Some(key) then Found(p, Some(key)) + [op.id]
            else if op.Remove? && op.key == Some(key) then Without(Found(p, Some(key)), op.id)
            else Found(p, Some(key))
  {
    WithoutNothing(Found(p, Some(key)), op.id);
  }

  /** The list under a key after a run on an index that is not unique: history tells it. */
  lemma {:induction false} HistoryTells(p: Postings, ops: seq<Operation>, key: Key)
    requires Tidy(p, false) && InsertsAndRemoves(ops)
    ensures Found(Run(p, false, ops), Some(key)) == Spared(Found(p, Some(key)), ops, key) + Surviving(ops, key)
    decreases ops
  {
    hide Step, Found, Tidy, Spared, Without;
    var held := Found(p, Some(key));
    if ops == [] {
      SparedByNone(held, key);
    } else {
      var op, rest := ops[0], ops[1..];
      assert ops == [op] + rest;
      StepStaysTidy(p, false, op);
      StepTells(p, op, key);
      HistoryTells(Step(p, false, op).0, rest, key);
      SparedFirst(held, op, rest, key);
      if op.Insert? && op.key == Some(key) {
        SparedJoins(held, [op.id], rest, key);
        SparedSingle(op.id, rest, key);
        Regroup(Spared(held, rest, key), Spared([op.id], rest, key), Surviving(rest, key));
      }
    }
  }

  lemma SparedSingle(id: nat, ops: seq<Operation>, key: Key)
    ensures Spared([id], ops, key) == if Remove(Some(key), id) !in ops then [id] else []
  {
    assert Spared([id][1..], ops, key) == [];
  }

  lemma WithoutNothing(ids: seq<nat>, id: nat)
    ensures ids == [] ==> Without(ids, id) == []
  {
  }

  /** From empty: the list is what was inserted and not removed since, in order of insertion. */
  lemma ListIsSurviving(ops: seq<Operation>, key: Key)
    requires InsertsAndRemoves(ops)
    ensures Found(Run(map[], false, ops), Some(key)) == Surviving(ops, key)
  {
    HistoryTells(map[], ops, key);
    assert [] + Surviving(ops, key) == Surviving(ops, key);
  }

  /** The next operation succeeds as history says: an insertion always, a removal if the key has any id. */
  lemma AnswerIsTold(ops: seq<Operation>, op: Operation)
    requires InsertsAndRemoves(ops) && !op.Update?
    ensures Step(Run(map[], false, ops), false, op).1
        <==> op.key.Some? && (op.Remove? ==> Surviving(ops, op.key.value) != [])
  {
    RunStaysTidy(map[], false, ops);
    if op.key.Some? {
      ListIsSurviving(ops, op.key.value);
    }
  }

  /** In a unique index an insertion succeeds exactly if nothing is found under its key, and is then found alone. */
  lemma UniqueInsertion(p: Postings, key: Key, id: nat)
    requires Tidy(p, true)
    ensures var (q, ok) := Inserted(p, true, Some(key), id);
            && (ok <==> Found(p, Some(key)) == [])
            && (if ok then Found(q, Some(key)) == [id] else q == p)
            && forall other: Key | other != key :: Found(q, Some(other)) == Found(p, Some(other))
  {
  }

  /** An update moves the id: it leaves the old key and, unless refused, comes last under the new one. */
  lemma UpdateMoves(p: Postings, unique: bool, oldKey: Key, newKey: Key, id: nat)
    requires Tidy(p, unique)
    ensures var (q, ok) := Updated(p, unique, Some(oldKey), Some(newKey), id);
            && (ok ==> Found(p, Some(oldKey)) != [] && Found(q, Some(newKey)) != []
                       && Found(q, Some(newKey))[|Found(q, Some(newKey))| - 1] == id)
            && (Found(p, Some(oldKey)) != [] && newKey != oldKey ==>
                  && id !in Found(q, Some(oldKey))
                  && (ok <==> !unique || Found(p, Some(newKey)) == [])
                  && Found(q, Some(newKey)) == Found(p, Some(newKey)) + if ok then [id] else [])
            && (Found(p, Some(oldKey)) == [] ==> q == p && !ok)
  {
  }
}
