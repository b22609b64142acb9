/** Field values and the composite keys made of them: their order, their equality and their hash. */
module IndexKey {

  datatype FieldValue =
    | TinyInt(n: int)
    | SmallInt(n: int)
    | Integer(n: int)
    | BigInt(n: int)
    | Float(x: real)
    | Double(x: real)
    | Text(s: string)
    | Boolean(b: bool)
    | FloatVector(xs: seq<real>)
    | Null

  datatype Kind = TINYINT | SMALLINT | INTEGER | BIGINT | FLOAT | DOUBLE | TEXT | BOOLEAN | VECTOR | NULL

  function KindOf(v: FieldValue): Kind {
    match v
    case TinyInt(_) => TINYINT
    case SmallInt(_) => SMALLINT
    case Integer(_) => INTEGER
    case BigInt(_) => BIGINT
    case Float(_) => FLOAT
    case Double(_) => DOUBLE
    case Text(_) => TEXT
    case Boolean(_) => BOOLEAN
    case FloatVector(_) => VECTOR
    case Null => NULL
  }

  type Key = seq<FieldValue>

  // Comparisons answer -1, 0 or 1.

  function CompareInt(a: int, b: int): int {
    if a < b then -1 else if a > b then 1 else 0
  }

  function CompareReal(a: real, b: real): int {
    if a < b then -1 else if a > b then 1 else 0
  }

  function CompareChar(a: char, b: char): int {
    CompareInt(a as int, b as int)
  }

  function CompareBool(a: bool, b: bool): int {
    if a == b then 0 else if a then 1 else -1
  }

  /** Lexicographic comparison; of two sequences one of which continues the other, the shorter comes first. */
  function Lexicographic<T>(compare: (T, T) -> int, a: seq<T>, b: seq<T>): int {
    if a == [] || b == [] then CompareInt(|a|, |b|)
    else if compare(a[0], b[0]) != 0 then compare(a[0], b[0])
    else Lexicographic(compare, a[1..], b[1..])
  }

  /** Values of different types compare as equal. */
  function CompareValues(l: FieldValue, r: FieldValue): int {
    if KindOf(l) != KindOf(r) then 0
    else
      match l
      case TinyInt(n) => CompareInt(n, r.n)
      case SmallInt(n) => CompareInt(n, r.n)
      case Integer(n) => CompareInt(n, r.n)
      case BigInt(n) => CompareInt(n, r.n)
      case Float(x) => CompareReal(x, r.x)
      case Double(x) => CompareReal(x, r.x)
      case Text(s) => Lexicographic(CompareChar, s, r.s)
      case Boolean(b) => CompareBool(b, r.b)
      case FloatVector(xs) =>
        if |xs| != |r.xs| then CompareInt(|xs|, |r.xs|) else Lexicographic(CompareReal, xs, r.xs)
      case Null => 0
  }

  function KeyCompare(a: Key, b: Key): int {
    Lexicographic(CompareValues, a, b)
  }

  // What makes a comparison an order, at the values concerned.

  /** Results of comparing a with b, b with c and a with c that fit together. */
  predicate Chains(ab: int, bc: int, ac: int) {
    (ab == 0 ==> ac == bc) && (bc == 0 ==> ac == ab) && (ab == bc ==> ac == ab)
  }

  function Shorter<T>(a: seq<T>, b: seq<T>): nat {
    if |a| <= |b| then |a| else |b|
  }

  lemma {:induction false} LexicographicBounds<T>(compare: (T, T) -> int, a: seq<T>, b: seq<T>)
    requires forall i | 0 <= i < Shorter(a, b) :: -1 <= compare(a[i], b[i]) <= 1
    ensures -1 <= Lexicographic(compare, a, b) <= 1
  {
    if a != [] && b != [] {
      forall i | 0 <= i < Shorter(a[1..], b[1..])
        ensures -1 <= compare(a[1..][i], b[1..][i]) <= 1
      {
        assert -1 <= compare(a[i + 1], b[i + 1]) <= 1;
      }
      LexicographicBounds(compare, a[1..], b[1..]);
    }
  }

  lemma {:induction false} LexicographicReverses<T>(compare: (T, T) -> int, a: seq<T>, b: seq<T>)
    requires forall i | 0 <= i < Shorter(a, b) :: compare(a[i], b[i]) == -compare(b[i], a[i])
    ensures Lexicographic(compare, a, b) == -Lexicographic(compare, b, a)
  {
    if a != [] && b != [] {
      assert compare(a[0], b[0]) == -compare(b[0], a[0]);
      forall i | 0 <= i < Shorter(a[1..], b[1..])
        ensures compare(a[1..][i], b[1..][i]) == -compare(b[1..][i], a[1..][i])
      {
        assert compare(a[i + 1], b[i + 1]) == -compare(b[i + 1], a[i + 1]);
      }
      LexicographicReverses(compare, a[1..], b[1..]);
    }
  }

  lemma {:induction false} LexicographicZero<T>(compare: (T, T) -> int, a: seq<T>, b: seq<T>)
    ensures Lexicographic(compare, a, b) == 0 <==> |a| == |b| && forall i | 0 <= i < |a| :: compare(a[i], b[i]) == 0
  {
    if a != [] && b != [] {
      LexicographicZero(compare, a[1..], b[1..]);
      if Lexicographic(compare, a, b) == 0 {
        forall i | 0 <= i < |a|
          ensures compare(a[i], b[i]) == 0
        {
          if i > 0 {
            assert compare(a[1..][i - 1], b[1..][i - 1]) == 0;
          }
        }
      } else if |a| == |b| && forall i | 0 <= i < |a| :: compare(a[i], b[i]) == 0 {
        forall i | 0 <= i < |a[1..]|
          ensures compare(a[1..][i], b[1..][i]) == 0
        {
          assert compare(a[i + 1], b[i + 1]) == 0;
        }
      }
    }
  }

  lemma {:induction false} LexicographicChains<T>(compare: (T, T) -> int, a: seq<T>, b: seq<T>, c: seq<T>)
    requires forall i | 0 <= i < |a| && i < |b| && i < |c| ::
               Chains(compare(a[i], b[i]), compare(b[i], c[i]), compare(a[i], c[i]))
    requires forall i | 0 <= i < Shorter(a, b) :: -1 <= compare(a[i], b[i]) <= 1
    requires forall i | 0 <= i < Shorter(b, c) :: -1 <= compare(b[i], c[i]) <= 1
    ensures Chains(Lexicographic(compare, a, b), Lexicographic(compare, b, c), Lexicographic(compare, a, c))
  {
    if a != [] && b != [] && c != [] {
      assert Chains(compare(a[0], b[0]), compare(b[0], c[0]), compare(a[0], c[0]));
      forall i | 0 <= i < |a[1..]| && i < |b[1..]| && i < |c[1..]|
        ensures Chains(compare(a[1..][i], b[1..][i]), compare(b[1..][i], c[1..][i]), compare(a[1..][i], c[1..][i]))
      {
        assert Chains(compare(a[i + 1], b[i + 1]), compare(b[i + 1], c[i + 1]), compare(a[i + 1], c[i + 1]));
      }
      forall i | 0 <= i < Shorter(a[1..], b[1..])
        ensures -1 <= compare(a[1..][i], b[1..][i]) <= 1
      {
        assert -1 <= compare(a[i + 1], b[i + 1]) <= 1;
      }
      forall i | 0 <= i < Shorter(b[1..], c[1..])
        ensures -1 <= compare(b[1..][i], c[1..][i]) <= 1
      {
        assert -1 <= compare(b[i + 1], c[i + 1]) <= 1;
      }
      LexicographicChains(compare, a[1..], b[1..], c[1..]);
    }
  }

  // Values.

  lemma ValuesBound(l: FieldValue, r: FieldValue)
    ensures -1 <= CompareValues(l, r) <= 1
  {
    if l.Text? && r.Text? {
      LexicographicBounds(CompareChar, l.s, r.s);
    } else if l.FloatVector? && r.FloatVector? {
      LexicographicBounds(CompareReal, l.xs, r.xs);
    }
  }

  lemma ValuesReverse(l: FieldValue, r: FieldValue)
    ensures CompareValues(l, r) == -CompareValues(r, l)
  {
    if l.Text? && r.Text? {
      LexicographicReverses(CompareChar, l.s, r.s);
    } else if l.FloatVector? && r.FloatVector? {
      LexicographicReverses(CompareReal, l.xs, r.xs);
    }
  }

  /** Values compare as equal when they are, and when their types differ. */
  lemma ValuesZero(l: FieldValue, r: FieldValue)
    ensures CompareValues(l, r) == 0 <==> l == r || KindOf(l) != KindOf(r)
  {
    if l.Text? && r.Text? {
      LexicographicZero(CompareChar, l.s, r.s);
    } else if l.FloatVector? && r.FloatVector? {
      LexicographicZero(CompareReal, l.xs, r.xs);
    }
  }

  lemma ValuesChain(a: FieldValue, b: FieldValue, c: FieldValue)
    requires KindOf(a) == KindOf(b) == KindOf(c)
    ensures Chains(CompareValues(a, b), CompareValues(b, c), CompareValues(a, c))
  {
    if a.Text? {
      LexicographicChains(CompareChar, a.s, b.s, c.s);
    } else if a.FloatVector? {
      LexicographicChains(CompareReal, a.xs, b.xs, c.xs);
    }
  }

  // Keys.

  /** The key's positions hold the given types; it may stop early. */
  predicate Conforms(key: Key, shape: seq<Kind>) {
    |key| <= |shape| && forall i | 0 <= i < |key| :: KindOf(key[i]) == shape[i]
  }

  lemma KeysBound(a: Key, b: Key)
    ensures -1 <= KeyCompare(a, b) <= 1
  {
    hide CompareValues;
    forall i | 0 <= i < Shorter(a, b)
      ensures -1 <= CompareValues(a[i], b[i]) <= 1
    {
      ValuesBound(a[i], b[i]);
    }
    LexicographicBounds(CompareValues, a, b);
  }

  /** Swapping the keys turns the sign, whatever the types. */
  lemma KeysReverse(a: Key, b: Key)
    ensures KeyCompare(a, b) == -KeyCompare(b, a)
  {
    hide CompareValues;
    forall i | 0 <= i < Shorter(a, b)
      ensures CompareValues(a[i], b[i]) == -CompareValues(b[i], a[i])
    {
      ValuesReverse(a[i], b[i]);
    }
    LexicographicReverses(CompareValues, a, b);
  }

  /** Keys compare as equal exactly when they are of one length and agree wherever their types do. */
  lemma KeysZero(a: Key, b: Key)
    ensures KeyCompare(a, b) == 0
        <==> |a| == |b| && forall i | 0 <= i < |a| :: a[i] == b[i] || KindOf(a[i]) != KindOf(b[i])
  {
    hide CompareValues;
    LexicographicZero(CompareValues, a, b);
    forall i | 0 <= i < Shorter(a, b)
      ensures CompareValues(a[i], b[i]) == 0 <==> a[i] == b[i] || KindOf(a[i]) != KindOf(b[i])
    {
      ValuesZero(a[i], b[i]);
    }
  }

  lemma KeysChain(a: Key, b: Key, c: Key, shape: seq<Kind>)
    requires Conforms(a, shape) && Conforms(b, shape) && Conforms(c, shape)
    ensures Chains(KeyCompare(a, b), KeyCompare(b, c), KeyCompare(a, c))
  {
    hide CompareValues;
    forall i | 0 <= i < |a| && i < |b| && i < |c|
      ensures Chains(CompareValues(a[i], b[i]), CompareValues(b[i], c[i]), CompareValues(a[i], c[i]))
    {
      ValuesChain(a[i], b[i], c[i]);
    }
    forall i | 0 <= i < Shorter(a, b)
      ensures -1 <= CompareValues(a[i], b[i]) <= 1
    {
      ValuesBound(a[i], b[i]);
    }
    forall i | 0 <= i < Shorter(b, c)
      ensures -1 <= CompareValues(b[i], c[i]) <= 1
    {
      ValuesBound(b[i], c[i]);
    }
    LexicographicChains(CompareValues, a, b, c);
  }

  /** On keys of one shape the comparison is a total order with equality at zero. */
  lemma KeysAreOrdered(a: Key, b: Key, c: Key, shape: seq<Kind>)
    requires Conforms(a, shape) && Conforms(b, shape) && Conforms(c, shape)
    ensures KeyCompare(a, b) == 0 <==> a == b
    ensures KeyCompare(a, b) == -KeyCompare(b, a) && -1 <= KeyCompare(a, b) <= 1
    ensures KeyCompare(a, b) < 0 && KeyCompare(b, c) < 0 ==> KeyCompare(a, c) < 0
    ensures Chains(KeyCompare(a, b), KeyCompare(b, c), KeyCompare(a, c))
  {
    hide KeyCompare;
    KeysZero(a, b);
    KeysReverse(a, b);
    KeysBound(a, b);
    KeysBound(b, c);
    KeysChain(a, b, c, shape);
  }

  // The laws on a set of keys.

  /** Only equal keys compare as equal, and the results on three keys fit together. */
  predicate Lawful(a: Key, b: Key, c: Key) {
    (KeyCompare(a, b) == 0 <==> a == b) && Chains(KeyCompare(a, b), KeyCompare(b, c), KeyCompare(a, c))
  }

  /** The comparison puts the keys in a total order. */
  ghost predicate Orderly(keys: set<Key>) {
    forall a, b, c | a in keys && b in keys && c in keys :: Lawful(a, b, c)
  }

  lemma OrderlyAt(keys: set<Key>, a: Key, b: Key, c: Key)
    requires Orderly(keys) && a in keys && b in keys && c in keys
    ensures KeyCompare(a, b) == 0 <==> a == b
    ensures KeyCompare(a, b) == -KeyCompare(b, a) && -1 <= KeyCompare(a, b) <= 1
    ensures KeyCompare(a, b) < 0 && KeyCompare(b, c) < 0 ==> KeyCompare(a, c) < 0
    ensures Chains(KeyCompare(a, b), KeyCompare(b, c), KeyCompare(a, c))
  {
    hide KeyCompare;
    assert Lawful(a, b, c);
    KeysReverse(a, b);
    KeysBound(a, b);
    KeysBound(b, c);
  }

  /** Any keys of one shape are in order. */
  lemma OneShapeIsOrderly(keys: set<Key>, shape: seq<Kind>)
    requires forall key | key in keys :: Conforms(key, shape)
    ensures Orderly(keys)
  {
    hide KeyCompare, Conforms;
    forall a, b, c | a in keys && b in keys && c in keys
      ensures Lawful(a, b, c)
    {
      KeysAreOrdered(a, b, c, shape);
    }
  }

  // When the laws hold on all keys whose positions hold values of given types.

  predicate Drawn(key: Key, kinds: seq<set<Kind>>) {
    |key| <= |kinds| && forall i | 0 <= i < |key| :: KindOf(key[i]) in kinds[i]
  }

  predicate OneKindEach(kinds: seq<set<Kind>>) {
    forall i | 0 <= i < |kinds| :: |kinds[i]| == 1
  }

  /** Two values of each type, different ones unless the type is that of NULL. */
  function Sample(kind: Kind, other: bool): (v: FieldValue)
    ensures KindOf(v) == kind
  {
    match kind
    case TINYINT => TinyInt(if other then 1 else 0)
    case SMALLINT => SmallInt(if other then 1 else 0)
    case INTEGER => Integer(if other then 1 else 0)
    case BIGINT => BigInt(if other then 1 else 0)
    case FLOAT => Float(if other then 1.0 else 0.0)
    case DOUBLE => Double(if other then 1.0 else 0.0)
    case TEXT => Text(if other then "a" else "")
    case BOOLEAN => Boolean(other)
    case VECTOR => FloatVector(if other then [1.0] else [0.0])
    case NULL => Null
  }

  lemma SamplesDiffer(kind: Kind)
    requires kind != NULL
    ensures Sample(kind, true) != Sample(kind, false)
  {
  }

  ghost function SomeKey(kinds: seq<set<Kind>>): (key: Key)
    requires forall i | 0 <= i < |kinds| :: kinds[i] != {}
    ensures |key| == |kinds| && Drawn(key, kinds)
    decreases kinds
  {
    if kinds == [] then []
    else
      var kind :| kind in kinds[0];
      [Sample(kind, false)] + SomeKey(kinds[1..])
  }

  lemma TwoKinds(kinds: set<Kind>) returns (k: Kind, m: Kind)
    requires kinds != {} && |kinds| != 1
    ensures k in kinds && m in kinds && k != m && k != NULL
  {
    k :| k in kinds;
    assert |kinds - {k}| > 0;
    m :| m in kinds - {k};
    if k == NULL {
      k, m := m, k;
    }
  }

  lemma SingleKind(kinds: set<Kind>, k: Kind, m: Kind)
    requires |kinds| == 1 && k in kinds && m in kinds
    ensures k == m
  {
    assert |kinds - {k}| == 0;
    assert m !in kinds - {k};
  }

  /** With one type per position, the keys are of one shape. */
  ghost function ShapeOfKinds(kinds: seq<set<Kind>>): (shape: seq<Kind>)
    requires OneKindEach(kinds)
    ensures |shape| == |kinds| && forall i | 0 <= i < |kinds| :: shape[i] in kinds[i]
    decreases kinds
  {
    if kinds == [] then []
    else
      assert |kinds[0]| == 1;
      var kind :| kind in kinds[0];
      [kind] + ShapeOfKinds(kinds[1..])
  }

  lemma DrawnConforms(key: Key, kinds: seq<set<Kind>>)
    requires OneKindEach(kinds) && Drawn(key, kinds)
    ensures Conforms(key, ShapeOfKinds(kinds))
  {
    forall i | 0 <= i < |key|
      ensures KindOf(key[i]) == ShapeOfKinds(kinds)[i]
    {
      SingleKind(kinds[i], KindOf(key[i]), ShapeOfKinds(kinds)[i]);
    }
  }

  /** Two types in a position: keys that differ there only, the second equal to both others, which differ. */
  lemma MixedKeys(kinds: seq<set<Kind>>) returns (a: Key, b: Key, c: Key)
    requires !OneKindEach(kinds) && forall i | 0 <= i < |kinds| :: kinds[i] != {}
    ensures Drawn(a, kinds) && Drawn(b, kinds) && Drawn(c, kinds)
    ensures KeyCompare(a, b) == 0 && KeyCompare(b, c) == 0 && KeyCompare(a, c) != 0 && a != b
    ensures a != [] && |a| == |b| && a[..|a| - 1] == b[..|a| - 1]
    ensures KindOf(a[|a| - 1]) != NULL && KindOf(a[|a| - 1]) != KindOf(b[|a| - 1])
    ensures forall x | x in [a[|a| - 1], b[|a| - 1]] :: x == Sample(KindOf(x), false)
  {
    hide KeyCompare, Sample;
    var i :| 0 <= i < |kinds| && |kinds[i]| != 1;
    var k, m := TwoKinds(kinds[i]);
    var first := SomeKey(kinds[..i]);
    a, b, c := first + [Sample(k, false)], first + [Sample(m, false)], first + [Sample(k, true)];
    KeysZero(a, b);
    KeysZero(b, c);
    KeysZero(a, c);
    SamplesDiffer(k);
    assert a[i] != c[i] && KindOf(a[i]) == KindOf(c[i]) && a[i] != b[i];
  }

  /**
   * The laws hold on all keys drawn from given types exactly when each position allows one type only; where a
   * position allows two, both only equal keys being equal and transitivity are lost.
   */
  lemma OrderedIffOneKind(kinds: seq<set<Kind>>)
    requires forall i | 0 <= i < |kinds| :: kinds[i] != {}
    ensures (forall a, b | Drawn(a, kinds) && Drawn(b, kinds) :: KeyCompare(a, b) == 0 <==> a == b)
        <==> OneKindEach(kinds)
    ensures (forall a, b, c | Drawn(a, kinds) && Drawn(b, kinds) && Drawn(c, kinds) ::
               Chains(KeyCompare(a, b), KeyCompare(b, c), KeyCompare(a, c)))
        <==> OneKindEach(kinds)
  {
    hide KeyCompare, Conforms, Drawn, OneKindEach;
    if OneKindEach(kinds) {
      forall a, b, c | Drawn(a, kinds) && Drawn(b, kinds) && Drawn(c, kinds)
        ensures KeyCompare(a, b) == 0 <==> a == b
        ensures Chains(KeyCompare(a, b), KeyCompare(b, c), KeyCompare(a, c))
      {
        DrawnConforms(a, kinds);
        DrawnConforms(b, kinds);
        DrawnConforms(c, kinds);
        KeysAreOrdered(a, b, c, ShapeOfKinds(kinds));
      }
      assert forall a, b | Drawn(a, kinds) && Drawn(b, kinds) ::
          Drawn(b, kinds) && (KeyCompare(a, b) == 0 <==> a == b);
    } else {
      var a, b, c := MixedKeys(kinds);
      assert KeyCompare(a, b) == 0 && a != b;
      assert !Chains(KeyCompare(a, b), KeyCompare(b, c), KeyCompare(a, c));
    }
  }

  /** With a NULL among the integers the order is lost: equal to both, while they differ. */
  lemma MixedKeysAreNotOrdered()
    ensures var one, null_, two := [Integer(1)], [Null], [Integer(2)];
            && KeyCompare(one, null_) == 0 && KeyCompare(null_, two) == 0 && KeyCompare(one, two) < 0
            && !Orderly({one, null_})
  {
    KeysZero([Integer(1)], [Null]);
    KeysZero([Null], [Integer(2)]);
    assert !Lawful([Integer(1)], [Null], [Null]);
  }

  method Compare(a: Key, b: Key) returns (r: int)
    ensures r == KeyCompare(a, b)
  {
    hide CompareValues;
    var minSize := if |a| < |b| then |a| else |b|;
    assert a[0..] == a && b[0..] == b;
    for i := 0 to minSize
      invariant KeyCompare(a[i..], b[i..]) == KeyCompare(a, b)
    {
      var cmp := CompareValues(a[i], b[i]);
      if cmp != 0 {
        return cmp;
      }
      assert a[i..][1..] == a[i + 1..] && b[i..][1..] == b[i + 1..];
    }
    if |a| < |b| {
      return -1;
    }
    if |a| > |b| {
      return 1;
    }
    return 0;
  }

  predicate KeyEquals(a: Key, b: Key) {
    |a| == |b| && forall i | 0 <= i < |a| :: CompareValues(a[i], b[i]) == 0
  }

  method Equals(a: Key, b: Key) returns (r: bool)
    ensures r == KeyEquals(a, b)
  {
    if |a| != |b| {
      return false;
    }
    for i := 0 to |a|
      invariant forall j | 0 <= j < i :: CompareValues(a[j], b[j]) == 0
    {
      if CompareValues(a[i], b[i]) != 0 {
        return false;
      }
    }
    return true;
  }

  /** The two notions of equal keys coincide on all keys. */
  lemma EqualsIsCompareZero(a: Key, b: Key)
    ensures KeyEquals(a, b) <==> KeyCompare(a, b) == 0
  {
    LexicographicZero(CompareValues, a, b);
  }

  // Hashes.  The hash of a plain value comes from the standard library.

  type Hasher = FieldValue -> bv64

  function Combine(hash: bv64, more: bv64): bv64 {
    hash ^ (more + 0x9e3779b9 + (hash << 6) + (hash >> 2))
  }

  /** The hashes of a list of values, combined from left to right. */
  function CombineAll(hasher: Hasher, hash: bv64, values: seq<FieldValue>): bv64
    decreases values
  {
    if values == [] then hash else CombineAll(hasher, Combine(hash, hasher(values[0])), values[1..])
  }

  function Floats(xs: seq<real>): (values: seq<FieldValue>)
    ensures |values| == |xs|
  {
    seq(|xs|, i requires 0 <= i < |xs| => Float(xs[i]))
  }

  function ValueHash(hasher: Hasher, v: FieldValue): bv64 {
    match v
    case FloatVector(xs) => CombineAll(hasher, 0, Floats(xs))
    case Null => 0
    case _ => hasher(v)
  }

  function KeyHash(hasher: Hasher, key: Key): bv64 {
    CombineAll(v => ValueHash(hasher, v), 0, key)
  }

  method HashFieldValue(hasher: Hasher, v: FieldValue) returns (hash: bv64)
    ensures hash == ValueHash(hasher, v)
  {
    hide Combine;
    hash := 0;
    match v {
      case FloatVector(xs) =>
        var values := Floats(xs);
        assert values[0..] == values;
        for i := 0 to |values|
          invariant CombineAll(hasher, hash, values[i..]) == CombineAll(hasher, 0, values)
        {
          assert values[i..][1..] == values[i + 1..];
          hash := Combine(hash, hasher(values[i]));
        }
      case Null =>
      case _ => hash := hasher(v);
    }
  }

  method Hash(hasher: Hasher, key: Key) returns (hash: bv64)
    ensures hash == KeyHash(hasher, key)
  {
    hide Combine, ValueHash;
    hash := 0;
    ghost var valueHasher := v => ValueHash(hasher, v);
    assert key[0..] == key;
    for i := 0 to |key|
      invariant CombineAll(valueHasher, hash, key[i..]) == CombineAll(valueHasher, 0, key)
    {
      assert key[i..][1..] == key[i + 1..];
      var valueHash := HashFieldValue(hasher, key[i]);
      hash := Combine(hash, valueHash);
    }
  }

  /** Among keys of one shape the two notions of equality are identity, so that equal keys hash alike. */
  lemma EqualKeysHashAlike(a: Key, b: Key, shape: seq<Kind>)
    requires Conforms(a, shape) && Conforms(b, shape)
    ensures KeyEquals(a, b) <==> a == b
  {
    EqualsIsCompareZero(a, b);
    KeysZero(a, b);
  }

  /** The lowest bit of what is combined shows in the result. */
  lemma CombineTells(hash: bv64, x: bv64, y: bv64)
    requires x & 1 != y & 1
    ensures Combine(hash, x) != Combine(hash, y)
  {
    LowestBit(hash, x);
    LowestBit(hash, y);
  }

  lemma LowestBit(hash: bv64, x: bv64)
    ensures Combine(hash, x) & 1 == (x & 1) ^ ((hash ^ (1 + (hash << 6) + (hash >> 2))) & 1)
  {
  }

  lemma {:induction false} CombineLast(hasher: Hasher, hash: bv64, values: seq<FieldValue>, v: FieldValue)
    ensures CombineAll(hasher, hash, values + [v]) == Combine(CombineAll(hasher, hash, values), hasher(v))
    decreases values
  {
    hide Combine;
    if values == [] {
      assert [] + [v] == [v] && [v][1..] == [];
    } else {
      CombineLast(hasher, Combine(hash, hasher(values[0])), values[1..], v);
      assert (values + [v])[1..] == values[1..] + [v];
    }
  }

  /** Some library hashes tell two values of different types apart. */
  lemma HashTells(v: FieldValue, w: FieldValue) returns (hasher: Hasher)
    requires KindOf(v) != KindOf(w) && KindOf(v) != NULL
    requires v == Sample(KindOf(v), false) && w == Sample(KindOf(w), false)
    ensures ValueHash(hasher, v) & 1 != ValueHash(hasher, w) & 1
  {
    if v.FloatVector? || w.FloatVector? {
      hasher := _ => 0;
      VectorHash(hasher);
    } else {
      hasher := x => if x == v then 1 else 0;
    }
  }

  lemma VectorHash(hasher: Hasher)
    requires hasher(Float(0.0)) == 0
    ensures ValueHash(hasher, FloatVector([0.0])) == 0x9e3779b9
  {
    assert Floats([0.0]) == [Float(0.0)];
    assert [Float(0.0)][1..] == [];
  }

  /**
   * Equal keys hash alike, whatever the library's hashes, on all keys drawn from given types exactly when each
   * position allows one type only.
   */
  lemma HashedAlikeIffOneKind(kinds: seq<set<Kind>>)
    requires forall i | 0 <= i < |kinds| :: kinds[i] != {}
    ensures (forall hasher: Hasher, a, b | Drawn(a, kinds) && Drawn(b, kinds) && KeyEquals(a, b) ::
               KeyHash(hasher, a) == KeyHash(hasher, b))
        <==> OneKindEach(kinds)
  {
    hide KeyCompare, Conforms, Drawn, OneKindEach, Combine, CombineAll, ValueHash, KeyEquals, Sample;
    if OneKindEach(kinds) {
      forall hasher: Hasher, a, b | Drawn(a, kinds) && Drawn(b, kinds) && KeyEquals(a, b)
        ensures KeyHash(hasher, a) == KeyHash(hasher, b)
      {
        DrawnConforms(a, kinds);
        DrawnConforms(b, kinds);
        EqualKeysHashAlike(a, b, ShapeOfKinds(kinds));
      }
    } else {
      var a, b, _ := MixedKeys(kinds);
      EqualsIsCompareZero(a, b);
      var n := |a| - 1;
      assert a[n] in [a[n], b[n]] && b[n] in [a[n], b[n]];
      var hasher := HashTells(a[n], b[n]);
      HashesDiffer(hasher, a[..n], a[n], b[n]);
      assert a == a[..n] + [a[n]] && b == a[..n] + [b[n]];
      assert KeyHash(hasher, a) != KeyHash(hasher, b);
    }
  }

  lemma HashesDiffer(hasher: Hasher, values: seq<FieldValue>, v: FieldValue, w: FieldValue)
    requires ValueHash(hasher, v) & 1 != ValueHash(hasher, w) & 1
    ensures KeyHash(hasher, values + [v]) != KeyHash(hasher, values + [w])
  {
    hide Combine, CombineAll, ValueHash;
    var valueHasher := x => ValueHash(hasher, x);
    var hash := CombineAll(valueHasher, 0, values);
    CombineLast(valueHasher, 0, values, v);
    CombineLast(valueHasher, 0, values, w);
    CombineTells(hash, ValueHash(hasher, v), ValueHash(hasher, w));
  }

  /** A NULL and an integer are equal as keys, though their hashes may differ. */
  lemma NullEqualsInteger(hasher: Hasher)
    requires hasher(Integer(5)) & 1 == 1
    ensures KeyEquals([Null], [Integer(5)]) && KeyHash(hasher, [Null]) != KeyHash(hasher, [Integer(5)])
  {
    hide Combine, CombineAll;
    HashesDiffer(hasher, [], Null, Integer(5));
    assert [] + [Null] == [Null] && [] + [Integer(5)] == [Integer(5)];
  }

  /** The combination in numbers: a value that hashes to 1, then a NULL. */
  lemma CombinedInNumbers(hasher: Hasher)
    requires hasher(Integer(1)) == 1
    ensures KeyHash(hasher, [Integer(1)]) == 0x9e3779ba && KeyHash(hasher, [Integer(1), Null]) == 0x28cd94bf1d
    ensures KeyHash(hasher, []) == 0
  {
    var valueHasher := v => ValueHash(hasher, v);
    FirstCombined();
    hide Combine;
    assert [Integer(1)][1..] == [] && [Integer(1), Null][1..] == [Null] && [Null][1..] == [];
    assert CombineAll(valueHasher, 0x28cd94bf1d, []) == 0x28cd94bf1d;
    assert CombineAll(valueHasher, 0x9e3779ba, [Null]) == CombineAll(valueHasher, 0x28cd94bf1d, []);
  }

  lemma FirstCombined()
    ensures Combine(0, 1) == 0x9e3779ba && Combine(0x9e3779ba, 0) == 0x28cd94bf1d
  {
  }

  // How an index compares its keys.

  datatype Comparing = ByOrder | ByHash(hasher: Hasher)

  /** What the container behind an index asks of its keys: only equal keys are the same to it. */
  ghost predicate Separates(comparing: Comparing, keys: set<Key>) {
    match comparing
    case ByOrder => Orderly(keys)
    case ByHash(hasher) =>
      forall a, b | a in keys && b in keys && KeyHash(hasher, a) == KeyHash(hasher, b) && KeyEquals(a, b) :: a == b
  }

  lemma SeparatesFewer(comparing: Comparing, keys: set<Key>, fewer: set<Key>)
    requires Separates(comparing, keys) && fewer <= keys
    ensures Separates(comparing, fewer)
  {
    hide Lawful, KeyHash, KeyEquals;
  }

  /** Keys of one shape suit both kinds of index, whatever the hashes. */
  lemma OneShapeSeparates(comparing: Comparing, keys: set<Key>, shape: seq<Kind>)
    requires forall key | key in keys :: Conforms(key, shape)
    ensures Separates(comparing, keys)
  {
    hide KeyHash, KeyEquals, Conforms;
    OneShapeIsOrderly(keys, shape);
    if comparing.ByHash? {
      forall a, b | a in keys && b in keys && KeyEquals(a, b)
        ensures a == b
      {
        EqualKeysHashAlike(a, b, shape);
      }
    }
  }
}
