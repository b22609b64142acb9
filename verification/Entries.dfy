/** The entries of an index, stored one after another, and the map they represent. */
module Entries {
  import opened IndexKey
  import opened Postings

  datatype Entry = Entry(key: Key, ids: seq<nat>)

  ghost predicate DistinctKeys(entries: seq<Entry>) {
    forall i, j | 0 <= i < j < |entries| :: entries[i].key != entries[j].key
  }

  ghost predicate Within(entries: seq<Entry>, keys: set<Key>) {
    forall i | 0 <= i < |entries| :: entries[i].key in keys
  }

  /** The entries are exactly the map's. */
  ghost predicate Represents(entries: seq<Entry>, p: Postings) {
    && (forall i | 0 <= i < |entries| :: entries[i].key in p && p[entries[i].key] == entries[i].ids)
    && (forall key | key in p :: exists i :: 0 <= i < |entries| && entries[i].key == key)
  }

  lemma EntryAt(entries: seq<Entry>, p: Postings, i: nat)
    requires Represents(entries, p) && i < |entries|
    ensures entries[i].key in p && p[entries[i].key] == entries[i].ids
  {
  }

  lemma RepresentedWithin(entries: seq<Entry>, p: Postings)
    requires Represents(entries, p)
    ensures Within(entries, p.Keys)
  {
  }

  function With(entries: seq<Entry>, i: nat, entry: Entry): (now: seq<Entry>)
    requires i <= |entries|
    ensures |now| == |entries| + 1 && now[i] == entry
    ensures forall j | 0 <= j < |now| && j != i :: now[j] == entries[if j < i then j else j - 1]
    ensures forall j | 0 <= j < |entries| :: entries[j] == now[if j < i then j else j + 1]
  {
    entries[..i] + [entry] + entries[i..]
  }

  lemma PutIn(entries: seq<Entry>, p: Postings, i: nat, entry: Entry)
    requires Represents(entries, p) && i <= |entries| && entry.key !in p
    ensures Represents(With(entries, i, entry), p[entry.key := entry.ids])
  {
    hide With;
    var now := With(entries, i, entry);
    forall key | key in p
      ensures exists j :: 0 <= j < |now| && now[j].key == key
    {
      var j :| 0 <= j < |entries| && entries[j].key == key;
      assert now[if j < i then j else j + 1] == entries[j];
    }
  }

  lemma OthersDiffer(entries: seq<Entry>, i: nat)
    requires DistinctKeys(entries) && i < |entries|
    ensures forall j | 0 <= j < |entries| && j != i :: entries[j].key != entries[i].key
  {
  }

  lemma Replace(entries: seq<Entry>, p: Postings, i: nat, ids: seq<nat>)
    requires DistinctKeys(entries) && Represents(entries, p) && i < |entries|
    ensures var now := entries[i := Entry(entries[i].key, ids)];
            DistinctKeys(now) && Represents(now, p[entries[i].key := ids])
  {
    var now := entries[i := Entry(entries[i].key, ids)];
    OthersDiffer(entries, i);
    assert forall j | 0 <= j < |now| :: now[j].key == entries[j].key;
    forall key | key in p
      ensures exists j :: 0 <= j < |now| && now[j].key == key
    {
      var j :| 0 <= j < |entries| && entries[j].key == key;
      assert now[j].key == key;
    }
  }

  function Omitting(entries: seq<Entry>, i: nat): (now: seq<Entry>)
    requires i < |entries|
    ensures |now| == |entries| - 1
    ensures forall j | 0 <= j < |now| :: now[j] == entries[if j < i then j else j + 1]
    ensures forall j | 0 <= j < |entries| && j != i :: entries[j] == now[if j < i then j else j - 1]
  {
    entries[..i] + entries[i + 1..]
  }

  lemma TakeOut(entries: seq<Entry>, p: Postings, i: nat)
    requires DistinctKeys(entries) && Represents(entries, p) && i < |entries|
    ensures Represents(Omitting(entries, i), p - {entries[i].key})
  {
    hide Omitting, DistinctKeys;
    OthersDiffer(entries, i);
    var now := Omitting(entries, i);
    forall key | key in p - {entries[i].key}
      ensures exists j :: 0 <= j < |now| && now[j].key == key
    {
      var j :| 0 <= j < |entries| && entries[j].key == key;
      assert now[if j < i then j else j - 1] == entries[j];
    }
  }
}
