/** The hash index: posting lists found by hash and equality of their keys. */
module HashIndex {
  import opened Wrappers
  import opened IndexKey
  import opened Postings
  import opened Entries

  class HashIndex {
    var indexName: string
    var isUnique: bool
    var entries: seq<Entry>  // in no particular order
    ghost var postings: Postings
    const hasher: Hasher

    ghost predicate Valid()
      reads this
    {
      DistinctKeys(entries) && Represents(entries, postings)
    }

    /** What a hash map asks of its callers: that of its keys and the given one only equal ones match. */
    ghost predicate Fit(key: Option<Key>)
      reads this
    {
      Fits(ByHash(hasher), postings, key)
    }

    constructor (indexName: string, isUnique: bool, hasher: Hasher)
      ensures Valid() && postings == map[] && this.isUnique == isUnique && this.indexName == indexName
      ensures this.hasher == hasher
    {
      this.indexName := indexName;
      this.isUnique := isUnique;
      this.hasher := hasher;
      entries := [];
      postings := map[];
    }

    /** The position of an entry with the key's hash and an equal key, or the number of entries; none is null. */
    method Find(key: Option<Key>) returns (i: nat)
      requires Valid() && Fit(key)
      ensures i <= |entries|
      ensures i < |entries| <==> key.Some? && key.value in postings
      ensures i < |entries| ==> entries[i].key == key.value
    {
      hide KeyEquals, KeyHash, CompareValues;
      RepresentedWithin(entries, postings);
      i := 0;
      if key.None? {
        return |entries|;
      }
      var hash := Hash(hasher, key.value);
      while i < |entries|
        invariant i <= |entries| && forall j | 0 <= j < i :: entries[j].key != key.value
      {
        EqualsItself(key.value);
        var entryHash := Hash(hasher, entries[i].key);
        if entryHash == hash {
          var equal := Equals(entries[i].key, key.value);
          if equal {
            return i;
          }
        }
        i := i + 1;
      }
    }

    method Insert(key: Option<Key>, id: nat) returns (ok: bool)
      requires Valid() && Fit(key)
      modifies this`entries, this`postings
      ensures Valid() && (postings, ok) == Inserted(old(postings), isUnique, key, id)
    {
      hide Represents, DistinctKeys, KeyEquals, KeyHash;
      if key.None? {
        return false;
      }
      var i := Find(key);
      if isUnique && i < |entries| {
        return false;
      }
      if i == |entries| {
        AddAtEnd(entries, postings, Entry(key.value, []));
        postings := postings[key.value := []];
        entries := entries + [Entry(key.value, [])];
      }
      EntryAt(entries, postings, i);
      Replace(entries, postings, i, entries[i].ids + [id]);
      postings := postings[key.value := postings[key.value] + [id]];
      entries := entries[i := Entry(entries[i].key, entries[i].ids + [id])];
      assert postings == Inserted(old(postings), isUnique, key, id).0;
      return true;
    }

    method Remove(key: Option<Key>, id: nat) returns (ok: bool)
      requires Valid() && Fit(key)
      modifies this`entries, this`postings
      ensures Valid() && (postings, ok) == Removed(old(postings), key, id)
    {
      hide Represents, DistinctKeys, KeyEquals, KeyHash;
      var i := Find(key);
      if i == |entries| {
        return false;
      }
      EntryAt(entries, postings, i);
      var rest := Without(entries[i].ids, id);
      Replace(entries, postings, i, rest);
      postings := postings[key.value := rest];
      entries := entries[i := Entry(entries[i].key, rest)];
      if rest == [] {
        OmitDistinct(entries, i);
        TakeOut(entries, postings, i);
        postings := postings - {key.value};
        entries := Omitting(entries, i);
      }
      assert postings == Removed(old(postings), key, id).0;
      return true;
    }

    method Update(oldKey: Option<Key>, newKey: Option<Key>, id: nat) returns (ok: bool)
      requires Valid() && Admits(ByHash(hasher), postings, Operation.Update(oldKey, newKey, id))
      modifies this`entries, this`postings
      ensures Valid() && (postings, ok) == Updated(old(postings), isUnique, oldKey, newKey, id)
    {
      hide Valid;
      var removed := Remove(oldKey, id);
      if !removed {
        return false;
      }
      ok := Insert(newKey, id);
    }

    method SearchEqual(key: Option<Key>) returns (ids: seq<nat>)
      requires Valid() && Fit(key)
      ensures ids == Found(postings, key)
    {
      hide Represents, DistinctKeys, KeyEquals, KeyHash;
      var i := Find(key);
      if i == |entries| {
        return [];
      }
      EntryAt(entries, postings, i);
      return entries[i].ids;
    }
  }

  lemma EqualsItself(key: Key)
    ensures KeyEquals(key, key)
  {
    EqualsIsCompareZero(key, key);
    KeysZero(key, key);
  }

  lemma AddAtEnd(entries: seq<Entry>, p: Postings, entry: Entry)
    requires DistinctKeys(entries) && Represents(entries, p) && entry.key !in p
    ensures var now := entries + [entry]; DistinctKeys(now) && Represents(now, p[entry.key := entry.ids])
  {
    PutIn(entries, p, |entries|, entry);
    assert With(entries, |entries|, entry) == entries + [entry];
  }

  lemma OmitDistinct(entries: seq<Entry>, i: nat)
    requires DistinctKeys(entries) && i < |entries|
    ensures DistinctKeys(Omitting(entries, i))
  {
    hide Omitting;
  }
}
