/** The ordered index: a sorted map from keys to posting lists. */
module BTreeIndex {
  import opened Wrappers
  import opened IndexKey
  import opened Postings
  import opened Entries

  ghost predicate Sorted(entries: seq<Entry>) {
    forall i, j | 0 <= i < j < |entries| :: KeyCompare(entries[i].key, entries[j].key) < 0
  }

  /** The keys a search asks for. */
  datatype Range =
    | Below(key: Key)
    | UpTo(key: Key)
    | Exactly(key: Key)
    | From(key: Key)
    | Above(key: Key)
    | Between(left: Key, right: Key)
    | Everything

  predicate Holds(range: Range, key: Key) {
    match range
    case Below(k) => KeyCompare(key, k) < 0
    case UpTo(k) => KeyCompare(key, k) <= 0
    case Exactly(k) => KeyCompare(key, k) == 0
    case From(k) => KeyCompare(key, k) >= 0
    case Above(k) => KeyCompare(key, k) > 0
    case Between(left, right) => KeyCompare(key, left) >= 0 && KeyCompare(key, right) <= 0
    case Everything => true
  }

  /** The ids of the entries whose keys are in the range, in the entries' order. */
  function Select(entries: seq<Entry>, range: Range): seq<nat> {
    if entries == [] then []
    else (if Holds(range, entries[0].key) then entries[0].ids else []) + Select(entries[1..], range)
  }

  lemma {:induction false} SelectSplits(entries: seq<Entry>, i: nat, range: Range)
    requires i <= |entries|
    ensures Select(entries, range) == Select(entries[..i], range) + Select(entries[i..], range)
  {
    hide Holds;
    if i == 0 {
      assert entries[..0] == [] && entries[0..] == entries;
    } else {
      SelectSplits(entries[1..], i - 1, range);
      assert entries[..i][1..] == entries[1..][..i - 1] && entries[1..][i - 1..] == entries[i..];
    }
  }

  lemma {:induction false} SelectNone(entries: seq<Entry>, range: Range)
    requires forall i | 0 <= i < |entries| :: !Holds(range, entries[i].key)
    ensures Select(entries, range) == []
  {
    hide Holds;
    if entries != [] {
      SelectNone(entries[1..], range);
    }
  }

  lemma {:induction false} SelectAll(entries: seq<Entry>, range: Range)
    requires forall i | 0 <= i < |entries| :: Holds(range, entries[i].key)
    ensures Select(entries, range) == Select(entries, Everything)
  {
    hide KeyCompare;
    if entries != [] {
      SelectAll(entries[1..], range);
    }
  }

  /** Selecting a stretch of the entries and nothing else. */
  lemma SelectStretch(entries: seq<Entry>, low: nat, high: nat, range: Range)
    requires low <= high <= |entries|
    requires forall i | 0 <= i < |entries| :: Holds(range, entries[i].key) <==> low <= i < high
    ensures Select(entries, range) == Select(entries[low..high], Everything)
  {
    hide Holds, Select;
    SelectSplits(entries, low, range);
    SelectSplits(entries[low..], high - low, range);
    assert entries[low..][..high - low] == entries[low..high] && entries[low..][high - low..] == entries[high..];
    SelectNone(entries[..low], range);
    SelectNone(entries[high..], range);
    SelectAll(entries[low..high], range);
  }

  // In sorted entries every comparison with a key holds up to some position.

  lemma StaysAbove(entries: seq<Entry>, keys: set<Key>, key: Key, i: nat)
    requires Sorted(entries) && Within(entries, keys) && Orderly(keys) && key in keys && i < |entries|
    ensures KeyCompare(entries[i].key, key) >= 0 ==> forall j | i < j < |entries| :: KeyCompare(entries[j].key, key) > 0
  {
    hide KeyCompare, Orderly;
    if KeyCompare(entries[i].key, key) >= 0 {
      forall j | i < j < |entries|
        ensures KeyCompare(entries[j].key, key) > 0
      {
        var a, b := entries[i].key, entries[j].key;
        OrderlyAt(keys, a, b, key);
        KeysBound(a, key);
        KeysBound(b, key);
      }
    }
  }

  // Sorted entries put in, replaced and taken out.

  lemma SortedDistinct(entries: seq<Entry>)
    requires Sorted(entries)
    ensures DistinctKeys(entries)
  {
    hide KeyCompare;
    forall i, j | 0 <= i < j < |entries|
      ensures entries[i].key != entries[j].key
    {
      KeysZero(entries[i].key, entries[j].key);
    }
  }

  /** Whether a position is where an absent key belongs. */
  ghost predicate Belongs(entries: seq<Entry>, key: Key, i: nat) {
    && i <= |entries|
    && forall j | 0 <= j < |entries| ::
         if j < i then KeyCompare(entries[j].key, key) < 0 else KeyCompare(key, entries[j].key) < 0
  }

  lemma PutInSorted(entries: seq<Entry>, i: nat, entry: Entry)
    requires Sorted(entries) && Belongs(entries, entry.key, i)
    ensures Sorted(With(entries, i, entry))
  {
    hide KeyCompare, With;
  }

  lemma ReplaceSorted(entries: seq<Entry>, i: nat, ids: seq<nat>)
    requires Sorted(entries) && i < |entries|
    ensures Sorted(entries[i := Entry(entries[i].key, ids)])
  {
    hide KeyCompare;
    var now := entries[i := Entry(entries[i].key, ids)];
    assert forall j | 0 <= j < |now| :: now[j].key == entries[j].key;
  }

  lemma TakeOutSorted(entries: seq<Entry>, i: nat)
    requires Sorted(entries) && i < |entries|
    ensures Sorted(Omitting(entries, i))
  {
    hide KeyCompare, Omitting;
  }

  class BTreeIndex {
    var indexName: string
    var isUnique: bool
    var entries: seq<Entry>
    ghost var postings: Postings

    ghost predicate Valid()
      reads this
    {
      Sorted(entries) && Represents(entries, postings)
    }

    /** What an ordered map asks of its callers: that its keys and the given one are in a total order. */
    ghost predicate Fit(key: Option<Key>)
      reads this
    {
      Fits(ByOrder, postings, key)
    }

    constructor (indexName: string, isUnique: bool)
      ensures Valid() && postings == map[] && this.isUnique == isUnique && this.indexName == indexName
    {
      this.indexName := indexName;
      this.isUnique := isUnique;
      entries := [];
      postings := map[];
    }

    /** The position of the first key not below the given one. */
    method LowerBound(key: Key) returns (i: nat)
      requires Valid() && Fit(Some(key))
      ensures i <= |entries|
      ensures forall j | 0 <= j < |entries| :: KeyCompare(entries[j].key, key) < 0 <==> j < i
    {
      hide KeyCompare, Orderly, Represents;
      RepresentedWithin(entries, postings);
      i := 0;
      while i < |entries| && KeyCompare(entries[i].key, key) < 0
        invariant i <= |entries| && forall j | 0 <= j < i :: KeyCompare(entries[j].key, key) < 0
      {
        i := i + 1;
      }
      if i < |entries| {
        StaysAbove(entries, postings.Keys + {key}, key, i);
      }
    }

    /** The position of the first key above the given one. */
    method UpperBound(key: Key) returns (i: nat)
      requires Valid() && Fit(Some(key))
      ensures i <= |entries|
      ensures forall j | 0 <= j < |entries| :: KeyCompare(entries[j].key, key) <= 0 <==> j < i
    {
      hide KeyCompare, Orderly, Represents;
      RepresentedWithin(entries, postings);
      i := 0;
      while i < |entries| && KeyCompare(entries[i].key, key) <= 0
        invariant i <= |entries| && forall j | 0 <= j < i :: KeyCompare(entries[j].key, key) <= 0
      {
        i := i + 1;
      }
      if i < |entries| {
        StaysAbove(entries, postings.Keys + {key}, key, i);
      }
    }

    /** The position of the key, or of the first key above it. */
    method Find(key: Key) returns (i: nat, found: bool)
      requires Valid() && Fit(Some(key))
      ensures i <= |entries| && found == (key in postings)
      ensures found ==> i < |entries| && entries[i].key == key
      ensures !found ==> Belongs(entries, key, i)
    {
      hide KeyCompare, Orderly;
      i := LowerBound(key);
      found := i < |entries| && KeyCompare(key, entries[i].key) >= 0;
      forall j | 0 <= j < |entries|
        ensures KeyCompare(entries[j].key, key) == 0 <==> entries[j].key == key
        ensures KeyCompare(entries[j].key, key) == -KeyCompare(key, entries[j].key)
      {
        OrderlyAt(postings.Keys + {key}, entries[j].key, key, key);
      }
      if i < |entries| {
        StaysAbove(entries, postings.Keys + {key}, key, i);
      }
    }

    method Insert(key: Option<Key>, id: nat) returns (ok: bool)
      requires Valid() && Fit(key)
      modifies this`entries, this`postings
      ensures Valid() && (postings, ok) == Inserted(old(postings), isUnique, key, id)
    {
      hide KeyCompare, Orderly, Sorted, Represents, DistinctKeys, Belongs;
      if key.None? {
        return false;
      }
      var i, found := Find(key.value);
      if isUnique && found {
        return false;
      }
      if !found {
        PutInSorted(entries, i, Entry(key.value, []));
        PutIn(entries, postings, i, Entry(key.value, []));
        postings := postings[key.value := []];
        entries := With(entries, i, Entry(key.value, []));
      }
      EntryAt(entries, postings, i);
      SortedDistinct(entries);
      ReplaceSorted(entries, i, entries[i].ids + [id]);
      Replace(entries, postings, i, entries[i].ids + [id]);
      postings := postings[key.value := postings[key.value] + [id]];
      entries := entries[i := Entry(entries[i].key, entries[i].ids + [id])];
      assert postings == Inserted(old(postings), isUnique, key, id).0;
      return true;
    }

    method Remove(key: Option<Key>, id: nat) returns (ok: bool)
      requires Valid() && Fit(key)
      modifies this`entries, this`postings
      ensures Valid() && (postings, ok) == Removed(old(postings), key, id)
    {
      hide KeyCompare, Orderly, Sorted, Represents, DistinctKeys, Belongs;
      if key.None? {
        return false;
      }
      var i, found := Find(key.value);
      if !found {
        return false;
      }
      EntryAt(entries, postings, i);
      var rest := Without(entries[i].ids, id);
      SortedDistinct(entries);
      ReplaceSorted(entries, i, rest);
      Replace(entries, postings, i, rest);
      postings := postings[key.value := rest];
      entries := entries[i := Entry(entries[i].key, rest)];
      if rest == [] {
        TakeOutSorted(entries, i);
        TakeOut(entries, postings, i);
        postings := postings - {key.value};
        entries := Omitting(entries, i);
      }
      assert postings == Removed(old(postings), key, id).0;
      return true;
    }

    method Update(oldKey: Option<Key>, newKey: Option<Key>, id: nat) returns (ok: bool)
      requires Valid() && Admits(ByOrder, postings, Operation.Update(oldKey, newKey, id))
      modifies this`entries, this`postings
      ensures Valid() && (postings, ok) == Updated(old(postings), isUnique, oldKey, newKey, id)
    {
      hide Valid;
      var removed := Remove(oldKey, id);
      if !removed {
        return false;
      }
      ok := Insert(newKey, id);
    }

    method SearchEqual(key: Option<Key>) returns (ids: seq<nat>)
      requires Valid() && Fit(key)
      ensures ids == Found(postings, key)
    {
      hide KeyCompare, Orderly, Sorted, Represents, DistinctKeys, Belongs;
      if key.None? {
        return [];
      }
      var i, found := Find(key.value);
      if !found {
        return [];
      }
      EntryAt(entries, postings, i);
      return entries[i].ids;
    }

    /** The ids of the entries from one position to another. */
    method Collect(low: nat, high: nat) returns (ids: seq<nat>)
      requires low <= high <= |entries|
      ensures ids == Select(entries[low..high], Everything)
    {
      ids := [];
      for i := low to high
        invariant ids + Select(entries[i..high], Everything) == Select(entries[low..high], Everything)
      {
        assert entries[i..high][1..] == entries[i + 1..high];
        Regroup(ids, entries[i].ids, Select(entries[i + 1..high], Everything));
        ids := ids + entries[i].ids;
      }
    }

    method SearchGreaterThan(key: Option<Key>) returns (ids: seq<nat>)
      requires Valid() && Fit(key)
      ensures ids == if key.Some? then Select(entries, Above(key.value)) else []
    {
      hide KeyCompare, Valid, Orderly, Select;
      if key.None? {
        return [];
      }
      var start := UpperBound(key.value);
      SelectStretch(entries, start, |entries|, Above(key.value));
      ids := Collect(start, |entries|);
    }

    method SearchLessThan(key: Option<Key>) returns (ids: seq<nat>)
      requires Valid() && Fit(key)
      ensures ids == if key.Some? then Select(entries, Below(key.value)) else []
    {
      hide KeyCompare, Valid, Orderly, Select;
      if key.None? {
        return [];
      }
      var end := LowerBound(key.value);
      SelectStretch(entries, 0, end, Below(key.value));
      ids := Collect(0, end);
    }

    method SearchGreaterEqual(key: Option<Key>) returns (ids: seq<nat>)
      requires Valid() && Fit(key)
      ensures ids == if key.Some? then Select(entries, From(key.value)) else []
    {
      hide KeyCompare, Valid, Orderly, Select;
      if key.None? {
        return [];
      }
      var start := LowerBound(key.value);
      SelectStretch(entries, start, |entries|, From(key.value));
      ids := Collect(start, |entries|);
    }

    method SearchLessEqual(key: Option<Key>) returns (ids: seq<nat>)
      requires Valid() && Fit(key)
      ensures ids == if key.Some? then Select(entries, UpTo(key.value)) else []
    {
      hide KeyCompare, Valid, Orderly, Select;
      if key.None? {
        return [];
      }
      var end := UpperBound(key.value);
      SelectStretch(entries, 0, end, UpTo(key.value));
      ids := Collect(0, end);
    }

    /**
     * Walks from the first key not below the left one to the first key above the right one.  Should a key lie
     * below the left and above the right one, the walk would never meet its end.
     */
    method SearchBetween(left: Option<Key>, right: Option<Key>) returns (ids: seq<nat>)
      requires Valid() && Fit(left) && Fit(right)
      requires left.Some? && right.Some? ==>
                 forall i | 0 <= i < |entries| ::
                   KeyCompare(entries[i].key, left.value) < 0 ==> KeyCompare(entries[i].key, right.value) <= 0
      ensures ids == if left.Some? && right.Some? then Select(entries, Between(left.value, right.value)) else []
    {
      hide KeyCompare, Valid, Orderly, Select;
      if left.None? || right.None? {
        return [];
      }
      var start := LowerBound(left.value);
      var end := UpperBound(right.value);
      assert end < |entries| ==> KeyCompare(entries[end].key, left.value) >= 0;
      SelectStretch(entries, start, end, Between(left.value, right.value));
      ids := Collect(start, end);
    }
  }
}
