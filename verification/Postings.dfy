/** What an index is for: under each key the ids inserted with it.  Both kinds of index refine these functions. */
module Postings {
  import opened Wrappers
  import opened IndexKey

  type Postings = map<Key, seq<nat>>

  /** The ids without a given one, in order. */
  function Without(ids: seq<nat>, id: nat): (rest: seq<nat>)
    ensures id !in rest && forall other | other != id :: other in rest <==> other in ids
    ensures |rest| <= |ids|
  {
    if ids == [] then []
    else if ids[0] == id then Without(ids[1..], id)
    else [ids[0]] + Without(ids[1..], id)
  }

  function At(p: Postings, key: Key): seq<nat> {
    if key in p then p[key] else []
  }

  /** A missing key stands for the null pointer. */
  function Inserted(p: Postings, unique: bool, key: Option<Key>, id: nat): (Postings, bool) {
    if key.None? || (unique && key.value in p) then (p, false)
    else (p[key.value := At(p, key.value) + [id]], true)
  }

  /** Succeeds whenever the key is there, even if the id is not. */
  function Removed(p: Postings, key: Option<Key>, id: nat): (Postings, bool) {
    if key.None? || key.value !in p then (p, false)
    else
      var rest := Without(p[key.value], id);
      (if rest == [] then p - {key.value} else p[key.value := rest], true)
  }

  function Updated(p: Postings, unique: bool, oldKey: Option<Key>, newKey: Option<Key>, id: nat): (Postings, bool) {
    var (q, removed) := Removed(p, oldKey, id);
    if removed then Inserted(q, unique, newKey, id) else (q, false)
  }

  function Found(p: Postings, key: Option<Key>): seq<nat> {
    if key.None? then [] else At(p, key.value)
  }

  // Runs of operations on one index.

  datatype Operation =
    | Insert(key: Option<Key>, id: nat)
    | Remove(key: Option<Key>, id: nat)
    | Update(oldKey: Option<Key>, newKey: Option<Key>, id: nat)

  function Step(p: Postings, unique: bool, op: Operation): (Postings, bool) {
    match op
    case Insert(key, id) => Inserted(p, unique, key, id)
    case Remove(key, id) => Removed(p, key, id)
    case Update(oldKey, newKey, id) => Updated(p, unique, oldKey, newKey, id)
  }

  /** Whether the index can tell the key from those it holds. */
  ghost predicate Fits(comparing: Comparing, p: Postings, key: Option<Key>) {
    key.Some? ==> Separates(comparing, p.Keys + {key.value})
  }

  /** Whether the index can tell the operation's keys from those it holds when it gets to them. */
  ghost predicate Admits(comparing: Comparing, p: Postings, op: Operation) {
    match op
    case Insert(key, _) => Fits(comparing, p, key)
    case Remove(key, _) => Fits(comparing, p, key)
    case Update(oldKey, newKey, id) =>
      Fits(comparing, p, oldKey) && (Removed(p, oldKey, id).1 ==> Fits(comparing, Removed(p, oldKey, id).0, newKey))
  }

  function Run(p: Postings, unique: bool, ops: seq<Operation>): Postings
    decreases ops
  {
    if ops == [] then p else Run(Step(p, unique, ops[0]).0, unique, ops[1..])
  }

  /** No empty lists, and in a unique index no list of two. */
  ghost predicate Tidy(p: Postings, unique: bool) {
    forall key | key in p :: p[key] != [] && (unique ==> |p[key]| == 1)
  }

  lemma StepStaysTidy(p: Postings, unique: bool, op: Operation)
    requires Tidy(p, unique)
    ensures Tidy(Step(p, unique, op).0, unique)
  {
  }

  /** Every run of a fresh index leaves it tidy. */
  lemma {:induction false} RunStaysTidy(p: Postings, unique: bool, ops: seq<Operation>)
    requires Tidy(p, unique)
    ensures Tidy(Run(p, unique, ops), unique)
    decreases ops
  {
    if ops != [] {
      StepStaysTidy(p, unique, ops[0]);
      RunStaysTidy(Step(p, unique, ops[0]).0, unique, ops[1..]);
    }
  }

  // Agreement of an index with the table it indexes.

  /** The keys of the entities in the table, by id. */
  type Keys = map<nat, Key>

  ghost predicate Distinct(ids: seq<nat>) {
    forall i, j | 0 <= i < j < |ids| :: ids[i] != ids[j]
  }

  /** Exactly one posting for each entity, under its key, and no other posting. */
  ghost predicate Matches(p: Postings, keys: Keys) {
    && (forall key | key in p :: p[key] != [] && Distinct(p[key]))
    && (forall key, id | key in p && id in p[key] :: id in keys && keys[id] == key)
    && (forall id | id in keys :: keys[id] in p && id in p[keys[id]])
  }

  /** No two entities share a key. */
  ghost predicate AllDiffer(keys: Keys) {
    forall i, j | i in keys && j in keys && keys[i] == keys[j] :: i == j
  }

  lemma MatchesNothing()
    ensures Matches(map[], map[])
  {
  }

  lemma {:induction false} WithoutDistinct(ids: seq<nat>, id: nat)
    requires Distinct(ids)
    ensures Distinct(Without(ids, id))
  {
    if ids != [] {
      assert ids == [ids[0]] + ids[1..];
      WithoutDistinct(ids[1..], id);
      var rest := Without(ids[1..], id);
      if ids[0] != id {
        assert ids[0] !in rest by {
          assert ids[0] !in ids[1..];
        }
      }
    }
  }

  lemma DistinctAppends(ids: seq<nat>, id: nat)
    requires Distinct(ids) && id !in ids
    ensures Distinct(ids + [id])
  {
  }

  /** Inserting a new entity's key succeeds, and keeps the match, unless the index is unique and the key taken. */
  lemma InsertMatches(p: Postings, unique: bool, keys: Keys, key: Key, id: nat)
    requires Matches(p, keys) && id !in keys
    ensures var (q, ok) := Inserted(p, unique, Some(key), id);
            && (ok <==> !unique || forall i | i in keys :: keys[i] != key)
            && (if ok then Matches(q, keys[id := key]) else q == p)
  {
    var (q, ok) := Inserted(p, unique, Some(key), id);
    if key in p {
      var holder := p[key][0];
      assert holder in p[key] && keys[holder] == key;
      if ok {
        assert id !in p[key];
        DistinctAppends(p[key], id);
      }
    }
    if ok {
      assert id in q[key];
      forall i | i in keys
        ensures keys[i] in q && i in q[keys[i]]
      {
        assert i in p[keys[i]];
      }
    }
  }

  /** Removing an entity's key always succeeds and keeps the match. */
  lemma RemoveMatches(p: Postings, keys: Keys, id: nat)
    requires Matches(p, keys) && id in keys
    ensures var (q, ok) := Removed(p, Some(keys[id]), id); ok && Matches(q, keys - {id})
  {
    var key := keys[id];
    WithoutDistinct(p[key], id);
    var q := Removed(p, Some(key), id).0;
    forall i | i in keys - {id}
      ensures keys[i] in q && i in q[keys[i]]
    {
      assert i in p[keys[i]];
    }
  }

  /** Updating an entity's key succeeds, and keeps the match, unless the index is unique and another has the new key. */
  lemma UpdateMatches(p: Postings, unique: bool, keys: Keys, id: nat, key: Key)
    requires Matches(p, keys) && id in keys
    ensures var (q, ok) := Updated(p, unique, Some(keys[id]), Some(key), id);
            && (ok <==> !unique || forall i | i in keys && i != id :: keys[i] != key)
            && (ok ==> Matches(q, keys[id := key]))
            && (!ok ==> Matches(q, keys - {id}))
  {
    RemoveMatches(p, keys, id);
    var q := Removed(p, Some(keys[id]), id).0;
    InsertMatches(q, unique, keys - {id}, key, id);
    assert (keys - {id})[id := key] == keys[id := key];
    if forall i | i in keys - {id} :: (keys - {id})[i] != key {
      forall i | i in keys && i != id
        ensures keys[i] != key
      {
        assert i in keys - {id};
      }
    }
  }

  /** What a lookup in a matching index answers: the entities with that key, each once. */
  lemma MatchingLookup(p: Postings, keys: Keys, key: Key)
    requires Matches(p, keys)
    ensures Distinct(Found(p, Some(key)))
    ensures forall id: nat :: id in Found(p, Some(key)) <==> id in keys && keys[id] == key
  {
  }
}
