/**
 * The order of keys in its own terms: which of two keys is smaller, without any of the comparison functions, and
 * what the searches of the ordered index answer in those terms.
 */
module KeyOrder {
  import opened Wrappers
  import opened IndexKey
  import opened Postings
  import opened Entries
  import opened BTreeIndex
  import opened RangeSearch

  /** The texts differ first where the left one has the smaller character, or it ends there. */
  ghost predicate TextLess(l: string, r: string) {
    exists p :: 0 <= p <= |l| && p <= |r| && l[..p] == r[..p]
                && (if p == |l| then p < |r| else p < |r| && l[p] as int < r[p] as int)
  }

  /** The shorter vector is smaller; of two of one length, the one smaller where they first differ. */
  ghost predicate VectorLess(l: seq<real>, r: seq<real>) {
    |l| < |r| || (|l| == |r| && exists p :: 0 <= p < |l| && l[..p] == r[..p] && l[p] < r[p])
  }

  /** Values of different types are not smaller either way; nor is NULL than NULL. */
  ghost predicate ValueLess(l: FieldValue, r: FieldValue) {
    match (l, r)
    case (TinyInt(m), TinyInt(n)) => m < n
    case (SmallInt(m), SmallInt(n)) => m < n
    case (Integer(m), Integer(n)) => m < n
    case (BigInt(m), BigInt(n)) => m < n
    case (Float(x), Float(y)) => x < y
    case (Double(x), Double(y)) => x < y
    case (Text(s), Text(t)) => TextLess(s, t)
    case (Boolean(a), Boolean(b)) => !a && b
    case (FloatVector(xs), FloatVector(ys)) => VectorLess(xs, ys)
    case _ => false
  }

  /** Neither value is smaller: they are the same, or of different types. */
  predicate Tied(l: FieldValue, r: FieldValue) {
    l == r || KindOf(l) != KindOf(r)
  }

  /** The first position that is not tied decides; if there is none, the shorter key is smaller. */
  ghost predicate KeyLess(a: Key, b: Key) {
    exists p :: 0 <= p <= |a| && p <= |b| && (forall i | 0 <= i < p :: Tied(a[i], b[i]))
                && (if p == |a| then p < |b| else p < |b| && ValueLess(a[p], b[p]))
  }

  /** The same of any sequences whose elements are compared. */
  ghost predicate LessAt<T(!new)>(compare: (T, T) -> int, a: seq<T>, b: seq<T>, p: nat) {
    && p <= |a| && p <= |b| && (forall i | 0 <= i < p :: compare(a[i], b[i]) == 0)
    && if p == |a| then p < |b| else p < |b| && compare(a[p], b[p]) < 0
  }

  lemma {:induction false} LexicographicLess<T(!new)>(compare: (T, T) -> int, a: seq<T>, b: seq<T>)
    ensures Lexicographic(compare, a, b) < 0 <==> exists p: nat :: LessAt(compare, a, b, p)
  {
    if a == [] || b == [] {
      if b != [] {
        assert LessAt(compare, a, b, 0);
      }
    } else if compare(a[0], b[0]) != 0 {
      if compare(a[0], b[0]) < 0 {
        assert LessAt(compare, a, b, 0);
      }
    } else {
      LexicographicLess(compare, a[1..], b[1..]);
      if p: nat :| LessAt(compare, a[1..], b[1..], p) {
        forall i | 0 <= i < p + 1
          ensures compare(a[i], b[i]) == 0
        {
          if i > 0 {
            assert compare(a[1..][i - 1], b[1..][i - 1]) == 0;
          }
        }
        assert LessAt(compare, a, b, p + 1);
      }
      if p: nat :| LessAt(compare, a, b, p) {
        assert p > 0;
        forall i | 0 <= i < p - 1
          ensures compare(a[1..][i], b[1..][i]) == 0
        {
          assert compare(a[i + 1], b[i + 1]) == 0;
        }
        assert LessAt(compare, a[1..], b[1..], p - 1);
      }
    }
  }

  lemma TextCompares(l: string, r: string)
    ensures Lexicographic(CompareChar, l, r) < 0 <==> TextLess(l, r)
  {
    LexicographicLess(CompareChar, l, r);
    if p: nat :| LessAt(CompareChar, l, r, p) {
      forall i | 0 <= i < p
        ensures l[..p][i] == r[..p][i]
      {
        assert CompareChar(l[i], r[i]) == 0;
      }
      assert l[..p] == r[..p];
    }
    if p :| 0 <= p <= |l| && p <= |r| && l[..p] == r[..p]
            && (if p == |l| then p < |r| else p < |r| && l[p] as int < r[p] as int) {
      forall i | 0 <= i < p
        ensures CompareChar(l[i], r[i]) == 0
      {
        assert l[..p][i] == r[..p][i];
      }
      assert LessAt(CompareChar, l, r, p);
    }
  }

  lemma VectorCompares(l: seq<real>, r: seq<real>)
    requires |l| == |r|
    ensures Lexicographic(CompareReal, l, r) < 0 <==> VectorLess(l, r)
  {
    LexicographicLess(CompareReal, l, r);
    if p: nat :| LessAt(CompareReal, l, r, p) {
      forall i | 0 <= i < p
        ensures l[..p][i] == r[..p][i]
      {
        assert CompareReal(l[i], r[i]) == 0;
      }
      assert l[..p] == r[..p];
    }
    if p :| 0 <= p < |l| && l[..p] == r[..p] && l[p] < r[p] {
      forall i | 0 <= i < p
        ensures CompareReal(l[i], r[i]) == 0
      {
        assert l[..p][i] == r[..p][i];
      }
      assert LessAt(CompareReal, l, r, p);
    }
  }

  /** Which of two values is smaller, type by type. */
  lemma ValuesCompare(l: FieldValue, r: FieldValue)
    ensures CompareValues(l, r) < 0 <==> ValueLess(l, r)
  {
    hide Lexicographic, TextLess;
    if l.Text? && r.Text? {
      TextCompares(l.s, r.s);
    } else if l.FloatVector? && r.FloatVector? && |l.xs| == |r.xs| {
      VectorCompares(l.xs, r.xs);
    }
  }

  /** Which of two keys is smaller. */
  lemma KeysCompare(a: Key, b: Key)
    ensures KeyCompare(a, b) < 0 <==> KeyLess(a, b)
  {
    hide CompareValues, ValueLess, Lexicographic;
    LexicographicLess(CompareValues, a, b);
    forall i | 0 <= i < |a| && i < |b|
      ensures (CompareValues(a[i], b[i]) == 0 <==> Tied(a[i], b[i]))
      ensures CompareValues(a[i], b[i]) < 0 <==> ValueLess(a[i], b[i])
    {
      ValuesZero(a[i], b[i]);
      ValuesCompare(a[i], b[i]);
    }
    if p: nat :| LessAt(CompareValues, a, b, p) {
      assert forall i | 0 <= i < p :: CompareValues(a[i], b[i]) == 0;
    }
    if p :| 0 <= p <= |a| && p <= |b| && (forall i | 0 <= i < p :: Tied(a[i], b[i]))
            && (if p == |a| then p < |b| else p < |b| && ValueLess(a[p], b[p])) {
      assert LessAt(CompareValues, a, b, p);
    }
  }

  /** The key is in the range, in terms of which key is smaller. */
  ghost predicate Asked(range: Range, key: Key) {
    match range
    case Below(k) => KeyLess(key, k)
    case UpTo(k) => !KeyLess(k, key)
    case Exactly(k) => !KeyLess(key, k) && !KeyLess(k, key)
    case From(k) => !KeyLess(key, k)
    case Above(k) => KeyLess(k, key)
    case Between(left, right) => !KeyLess(key, left) && !KeyLess(right, key)
    case Everything => true
  }

  lemma RangesMean(range: Range, key: Key)
    ensures Holds(range, key) <==> Asked(range, key)
  {
    hide KeyCompare, KeyLess;
    forall a: Key, b: Key
      ensures KeyCompare(a, b) < 0 <==> KeyLess(a, b)
      ensures KeyCompare(a, b) > 0 <==> KeyLess(b, a)
    {
      KeysCompare(a, b);
      KeysCompare(b, a);
      KeysReverse(a, b);
    }
  }

  /** Every search answers exactly the entities whose keys are smaller, greater or neither, as it is asked. */
  lemma SearchMeans(entries: seq<Entry>, p: Postings, keys: Keys, range: Range, id: nat)
    requires Represents(entries, p) && Matches(p, keys)
    ensures id in Select(entries, range) <==> id in keys && Asked(range, keys[id])
  {
    hide Holds, Asked, Select, Represents, Matches;
    SearchFilters(entries, p, keys, range, id);
    if id in keys {
      RangesMean(range, keys[id]);
    }
  }

  /** And in ascending order of their keys. */
  lemma SearchAscends(entries: seq<Entry>, p: Postings, keys: Keys, range: Range, i: nat, j: nat)
    requires Sorted(entries) && Represents(entries, p) && Matches(p, keys)
    requires i < j < |Select(entries, range)|
    ensures var ids := Select(entries, range);
            ids[i] in keys && ids[j] in keys && ids[i] != ids[j] && !KeyLess(keys[ids[j]], keys[ids[i]])
  {
    hide KeyCompare, KeyLess, Select, Sorted, Represents, Matches;
    SearchIsFilterAndSort(entries, p, keys, range);
    var ids := Select(entries, range);
    KeysCompare(keys[ids[j]], keys[ids[i]]);
    KeysReverse(keys[ids[i]], keys[ids[j]]);
  }
}
