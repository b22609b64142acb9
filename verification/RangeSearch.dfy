/** What the searches of the ordered index mean, for each other and for the table behind the index. */
module RangeSearch {
  import opened Wrappers
  import opened IndexKey
  import opened Postings
  import opened Entries
  import opened BTreeIndex

  // Searches cut the index into consecutive pieces.

  ghost predicate Precedes(entries: seq<Entry>, first: Range, second: Range) {
    forall i, j | 0 <= i <= j < |entries| :: !(Holds(second, entries[i].key) && Holds(first, entries[j].key))
  }

  ghost predicate Covers(entries: seq<Entry>, whole: Range, first: Range, second: Range) {
    forall i | 0 <= i < |entries| ::
      Holds(whole, entries[i].key) <==> Holds(first, entries[i].key) || Holds(second, entries[i].key)
  }

  lemma PrecedesAt(entries: seq<Entry>, first: Range, second: Range, i: nat, j: nat)
    requires Precedes(entries, first, second) && i <= j < |entries|
    ensures !(Holds(second, entries[i].key) && Holds(first, entries[j].key))
  {
    hide Holds;
  }

  lemma PrecedesAfterFirst(entries: seq<Entry>, first: Range, second: Range)
    requires entries != [] && Precedes(entries, first, second)
    ensures Precedes(entries[1..], first, second)
  {
    hide Holds;
    var rest := entries[1..];
    assert forall i | 0 <= i < |rest| :: rest[i] == entries[i + 1];
  }

  lemma CoversAfterFirst(entries: seq<Entry>, whole: Range, first: Range, second: Range)
    requires entries != [] && Covers(entries, whole, first, second)
    ensures Covers(entries[1..], whole, first, second)
    ensures Holds(whole, entries[0].key) <==> Holds(first, entries[0].key) || Holds(second, entries[0].key)
  {
    hide Holds;
  }

  lemma NoneAfterFirst(entries: seq<Entry>, first: Range, second: Range)
    requires entries != [] && Precedes(entries, first, second) && Holds(second, entries[0].key)
    ensures Select(entries[1..], first) == [] && !Holds(first, entries[0].key)
  {
    hide Holds, Select, Precedes;
    var rest := entries[1..];
    PrecedesAt(entries, first, second, 0, 0);
    forall i | 0 <= i < |rest|
      ensures !Holds(first, rest[i].key)
    {
      PrecedesAt(entries, first, second, 0, i + 1);
    }
    SelectNone(rest, first);
  }

  lemma {:induction false} SelectJoins(entries: seq<Entry>, whole: Range, first: Range, second: Range)
    requires Precedes(entries, first, second) && Covers(entries, whole, first, second)
    ensures Select(entries, whole) == Select(entries, first) + Select(entries, second)
  {
    hide Holds, Precedes, Covers, Select;
    if entries == [] {
      SelectNothing(whole, first, second);
    } else {
      var rest := entries[1..];
      PrecedesAfterFirst(entries, first, second);
      CoversAfterFirst(entries, whole, first, second);
      SelectJoins(rest, whole, first, second);
      SelectFirst(entries, whole);
      SelectFirst(entries, first);
      SelectFirst(entries, second);
      if Holds(second, entries[0].key) {
        NoneAfterFirst(entries, first, second);
        assert Select(rest, whole) == Select(rest, second);
      } else if Holds(first, entries[0].key) {
        Regroup(entries[0].ids, Select(rest, first), Select(rest, second));
      }
    }
  }

  lemma SelectNothing(whole: Range, first: Range, second: Range)
    ensures Select([], whole) == Select([], first) + Select([], second)
  {
  }

  lemma SelectFirst(entries: seq<Entry>, range: Range)
    requires entries != []
    ensures Select(entries, range) ==
            if Holds(range, entries[0].key) then entries[0].ids + Select(entries[1..], range)
            else Select(entries[1..], range)
  {
    hide Holds;
  }

  /** Two keys of the index, both compared with a third. */
  lemma OrderedBy(entries: seq<Entry>, known: set<Key>, key: Key, i: nat, j: nat)
    requires Sorted(entries) && Within(entries, known) && Orderly(known) && key in known && i <= j < |entries|
    ensures KeyCompare(entries[i].key, key) >= 0 && i < j ==> KeyCompare(entries[j].key, key) > 0
    ensures KeyCompare(entries[j].key, key) <= 0 && i < j ==> KeyCompare(entries[i].key, key) < 0
  {
    hide KeyCompare, Orderly;
    StaysAbove(entries, known, key, i);
  }

  /** Less than, equal and greater than, one after another, are the whole index. */
  lemma ThreeWaySplit(entries: seq<Entry>, known: set<Key>, key: Key)
    requires Sorted(entries) && Within(entries, known) && Orderly(known) && key in known
    ensures Select(entries, UpTo(key)) == Select(entries, Below(key)) + Select(entries, Exactly(key))
    ensures Select(entries, From(key)) == Select(entries, Exactly(key)) + Select(entries, Above(key))
    ensures Select(entries, Below(key)) + Select(entries, Exactly(key)) + Select(entries, Above(key))
         == Select(entries, Everything)
  {
    hide KeyCompare, Orderly, Sorted, Select;
    forall i, j | 0 <= i <= j < |entries|
      ensures !(Holds(Exactly(key), entries[i].key) && Holds(Below(key), entries[j].key))
      ensures !(Holds(Above(key), entries[i].key) && Holds(Exactly(key), entries[j].key))
      ensures !(Holds(Above(key), entries[i].key) && Holds(UpTo(key), entries[j].key))
    {
      OrderedBy(entries, known, key, i, j);
    }
    SelectJoins(entries, UpTo(key), Below(key), Exactly(key));
    SelectJoins(entries, From(key), Exactly(key), Above(key));
    SelectJoins(entries, Everything, UpTo(key), Above(key));
  }

  /** Between two keys in order: what is from the left on, up to what is above the right; and the reverse. */
  lemma BetweenSplit(entries: seq<Entry>, known: set<Key>, left: Key, right: Key)
    requires Sorted(entries) && Within(entries, known) && Orderly(known) && left in known && right in known
    requires KeyCompare(left, right) <= 0
    ensures Select(entries, From(left)) == Select(entries, Between(left, right)) + Select(entries, Above(right))
    ensures Select(entries, UpTo(right)) == Select(entries, Below(left)) + Select(entries, Between(left, right))
  {
    hide KeyCompare, Orderly, Sorted, Select;
    forall i, j | 0 <= i <= j < |entries|
      ensures !(Holds(Above(right), entries[i].key) && Holds(Between(left, right), entries[j].key))
      ensures !(Holds(Between(left, right), entries[i].key) && Holds(Below(left), entries[j].key))
    {
      OrderedBy(entries, known, left, i, j);
      OrderedBy(entries, known, right, i, j);
    }
    forall i | 0 <= i < |entries|
      ensures KeyCompare(entries[i].key, right) > 0 ==> KeyCompare(entries[i].key, left) >= 0
      ensures KeyCompare(entries[i].key, left) < 0 ==> KeyCompare(entries[i].key, right) <= 0
    {
      assert entries[i].key in known;
      OrderlyAt(known, entries[i].key, left, right);
      KeysBound(left, right);
    }
    SelectJoins(entries, From(left), Between(left, right), Above(right));
    SelectJoins(entries, UpTo(right), Below(left), Between(left, right));
  }

  /** The equality search is the lookup. */
  lemma ExactlyIsFound(entries: seq<Entry>, known: set<Key>, p: Postings, key: Key)
    requires Sorted(entries) && Within(entries, known) && Orderly(known) && Represents(entries, p) && key in known
    ensures Select(entries, Exactly(key)) == Found(p, Some(key))
  {
    hide KeyCompare, Orderly, Sorted, Select;
    SortedDistinct(entries);
    forall i | 0 <= i < |entries|
      ensures Holds(Exactly(key), entries[i].key) <==> entries[i].key == key
    {
      OrderlyAt(known, entries[i].key, key, key);
    }
    if key in p {
      var i :| 0 <= i < |entries| && entries[i].key == key;
      SelectStretch(entries, i, i + 1, Exactly(key));
      assert entries[i..i + 1] == [entries[i]];
      SelectOne(entries[i]);
    } else {
      SelectNone(entries, Exactly(key));
    }
  }

  lemma SelectOne(entry: Entry)
    ensures Select([entry], Everything) == entry.ids
  {
    assert Select([entry][1..], Everything) == [];
  }

  // Searches filter the table.

  lemma {:induction false} SelectMembers(entries: seq<Entry>, range: Range, id: nat)
    ensures id in Select(entries, range)
        <==> exists i :: 0 <= i < |entries| && Holds(range, entries[i].key) && id in entries[i].ids
  {
    hide Holds;
    if entries != [] {
      var rest := entries[1..];
      SelectMembers(rest, range, id);
      if id in Select(rest, range) {
        var i :| 0 <= i < |rest| && Holds(range, rest[i].key) && id in rest[i].ids;
        assert entries[i + 1] == rest[i];
      }
      if i :| 0 <= i < |entries| && Holds(range, entries[i].key) && id in entries[i].ids {
        if i > 0 {
          assert entries[i] == rest[i - 1];
        }
      }
    }
  }

  /** A search answers exactly the entities whose keys are in its range. */
  lemma SearchFilters(entries: seq<Entry>, p: Postings, keys: Keys, range: Range, id: nat)
    requires Represents(entries, p) && Matches(p, keys)
    ensures id in Select(entries, range) <==> id in keys && Holds(range, keys[id])
  {
    hide Holds, Select;
    SelectMembers(entries, range, id);
    if id in keys && Holds(range, keys[id]) {
      var i :| 0 <= i < |entries| && entries[i].key == keys[id];
      assert id in entries[i].ids;
    }
  }

  /** The ids stand in the order of their keys, each once. */
  ghost predicate InKeyOrder(ids: seq<nat>, keys: Keys) {
    && (forall i | 0 <= i < |ids| :: ids[i] in keys)
    && (forall i, j | 0 <= i < j < |ids| :: ids[i] != ids[j] && KeyCompare(keys[ids[i]], keys[ids[j]]) <= 0)
  }

  ghost predicate HoldsIds(entries: seq<Entry>, keys: Keys) {
    forall i | 0 <= i < |entries| ::
      Distinct(entries[i].ids) && forall id | id in entries[i].ids :: id in keys && keys[id] == entries[i].key
  }

  lemma {:induction false} SelectIsOrdered(entries: seq<Entry>, keys: Keys, range: Range)
    requires Sorted(entries) && HoldsIds(entries, keys)
    ensures InKeyOrder(Select(entries, range), keys)
  {
    hide KeyCompare, Holds;
    if entries != [] {
      var rest := entries[1..];
      assert forall i | 0 <= i < |rest| :: rest[i] == entries[i + 1];
      SelectIsOrdered(rest, keys, range);
      var head, tail := if Holds(range, entries[0].key) then entries[0].ids else [], Select(rest, range);
      forall id | id in tail
        ensures id in keys && KeyCompare(entries[0].key, keys[id]) < 0
      {
        SelectMembers(rest, range, id);
        var i :| 0 <= i < |rest| && Holds(range, rest[i].key) && id in rest[i].ids;
        assert rest[i] == entries[i + 1] && keys[id] == rest[i].key;
      }
      KeysZero(entries[0].key, entries[0].key);
      OrderedConcat(head, tail, keys, entries[0].key);
    }
  }

  lemma OrderedConcat(head: seq<nat>, tail: seq<nat>, keys: Keys, key: Key)
    requires Distinct(head) && (forall id | id in head :: id in keys && keys[id] == key)
    requires InKeyOrder(tail, keys) && forall id | id in tail :: KeyCompare(key, keys[id]) < 0
    requires KeyCompare(key, key) == 0
    ensures InKeyOrder(head + tail, keys)
  {
    hide KeyCompare;
    var ids := head + tail;
    forall i | 0 <= i < |ids|
      ensures ids[i] in keys
    {
      assert ids[i] in head || ids[i] in tail;
    }
    forall i, j | 0 <= i < j < |ids|
      ensures ids[i] != ids[j] && KeyCompare(keys[ids[i]], keys[ids[j]]) <= 0
    {
      if j < |head| {
        assert head[i] != head[j] && head[i] in head && head[j] in head;
      } else if i < |head| {
        assert head[i] in head && tail[j - |head|] in tail;
      } else {
        assert tail[i - |head|] != tail[j - |head|];
      }
    }
  }

  /** So a search in a matching index is the table filtered by the range and sorted by key. */
  lemma SearchIsFilterAndSort(entries: seq<Entry>, p: Postings, keys: Keys, range: Range)
    requires Sorted(entries) && Represents(entries, p) && Matches(p, keys)
    ensures InKeyOrder(Select(entries, range), keys)
    ensures forall id: nat :: id in Select(entries, range) <==> id in keys && Holds(range, keys[id])
  {
    hide KeyCompare, Holds, Select, Sorted;
    forall i | 0 <= i < |entries|
      ensures Distinct(entries[i].ids) && forall id | id in entries[i].ids :: id in keys && keys[id] == entries[i].key
    {
    }
    SelectIsOrdered(entries, keys, range);
    forall id: nat
      ensures id in Select(entries, range) <==> id in keys && Holds(range, keys[id])
    {
      SearchFilters(entries, p, keys, range, id);
    }
  }
}
