/**
 Ordering and equality of value trees: `operator<`, `operator==` and `compare` of json_value.cpp.
 Containers compare first by their number of entries, then lexicographically entry by entry, each
 entry by key and then by value.
 */
module JsonOrder {
  import opened Bytes
  import opened JsonValue

  // Sizes, for termination: the comparison of entries swaps its arguments.

  function Size(v: Value): (n: nat)
    ensures n >= 1
    decreases v, 0
  {
    match v.data
    case Array(m) => 1 + EntriesSize(m)
    case Object(m) => 1 + EntriesSize(m)
    case _ => 1
  }

  function EntriesSize(m: Entries): nat
    decreases m, 0
  {
    match m
    case Nil => 0
    case Cons(_, v, rest) => 1 + Size(v) + EntriesSize(rest)
  }

  /** The numeric value of the type enumeration. */
  function Tag(d: Data): nat {
    match d
    case Null => 0
    case Int(_) => 1
    case UInt(_) => 2
    case Real(_) => 3
    case Str(_) => 4
    case Bool(_) => 5
    case Array(_) => 6
    case Object(_) => 7
  }

  /** Comparison of doubles: false as soon as one side is not a number. */
  predicate DoubleLess(a: Double, b: Double) {
    match (a, b)
    case (NaN, _) => false
    case (_, NaN) => false
    case (Finite(x), Finite(y)) => x < y
    case (NegativeInfinity, _) => b != NegativeInfinity
    case (_, PositiveInfinity) => a != PositiveInfinity
    case _ => false
  }

  predicate DoubleEqual(a: Double, b: Double) {
    a == b && a != NaN
  }

  predicate StringLess(a: Option<bytes>, b: Option<bytes>) {
    if a == None || b == None then b != None else BytesLess(a.value, b.value)
  }

  predicate Less(a: Value, b: Value)
    decreases Size(a) + Size(b)
  {
    if Tag(a.data) != Tag(b.data) then Tag(a.data) < Tag(b.data)
    else
      match (a.data, b.data)
      case (Int(x), Int(y)) => x < y
      case (UInt(x), UInt(y)) => x < y
      case (Real(x), Real(y)) => DoubleLess(x, y)
      case (Bool(x), Bool(y)) => !x && y
      case (Str(x), Str(y)) => StringLess(x, y)
      case (Array(m), Array(n)) => MapLess(m, n)
      case (Object(m), Object(n)) => MapLess(m, n)
      case _ => false
  }

  predicate MapLess(m: Entries, n: Entries)
    decreases EntriesSize(m) + EntriesSize(n), 1
  {
    var delta := Count(m) - Count(n);
    if delta != 0 then delta < 0 else EntriesLess(m, n)
  }

  /** Lexicographic comparison of two ranges of entries. */
  predicate EntriesLess(m: Entries, n: Entries)
    decreases EntriesSize(m) + EntriesSize(n), 0
  {
    match (m, n)
    case (_, Nil) => false
    case (Nil, _) => true
    case (Cons(k, v, rest), Cons(k', v', rest')) =>
      if PairLess(k, v, k', v') then true
      else if PairLess(k', v', k, v) then false
      else EntriesLess(rest, rest')
  }

  predicate PairLess(k: Key, v: Value, k': Key, v': Value)
    decreases Size(v) + Size(v') + 1
  {
    KeyLess(k, k') || (!KeyLess(k', k) && Less(v, v'))
  }

  predicate Equal(a: Value, b: Value)
    decreases a, 0
  {
    Tag(a.data) == Tag(b.data) &&
    match (a.data, b.data)
    case (Int(x), Int(y)) => x == y
    case (UInt(x), UInt(y)) => x == y
    case (Real(x), Real(y)) => DoubleEqual(x, y)
    case (Bool(x), Bool(y)) => x == y
    case (Str(x), Str(y)) => x == y
    case (Array(m), Array(n)) => Count(m) == Count(n) && EntriesEqual(m, n)
    case (Object(m), Object(n)) => Count(m) == Count(n) && EntriesEqual(m, n)
    case _ => true
  }

  predicate EntriesEqual(m: Entries, n: Entries)
    decreases m, 0
  {
    match (m, n)
    case (Cons(k, v, rest), Cons(k', v', rest')) =>
      k == k' && Equal(v, v') && EntriesEqual(rest, rest')
    case _ => m.Nil? && n.Nil?
  }

  function Compare(a: Value, b: Value): int {
    if Less(a, b) then -1 else if Less(b, a) then 1 else 0
  }

  predicate NaNFree(v: Value)
    decreases v, 0
  {
    match v.data
    case Real(d) => d != NaN
    case Array(m) => NaNFreeEntries(m)
    case Object(m) => NaNFreeEntries(m)
    case _ => true
  }

  predicate NaNFreeEntries(m: Entries)
    decreases m, 0
  {
    match m
    case Nil => true
    case Cons(_, v, rest) => NaNFree(v) && NaNFreeEntries(rest)
  }

  // --------------------------------------------------------------------------- Equality

  /** Equality is agreement up to offsets, and requires that no number is NaN. */
  lemma {:induction false} EqualMeansSameTree(a: Value, b: Value)
    ensures Equal(a, b) <==> Strip(a) == Strip(b) && NaNFree(a)
    decreases a, 0
  {
    match (a.data, b.data)
    case (Array(m), Array(n)) => EntriesEqualMeansSame(m, n);
    case (Object(m), Object(n)) => EntriesEqualMeansSame(m, n);
    case _ =>
  }

  lemma {:induction false} EntriesEqualMeansSame(m: Entries, n: Entries)
    ensures EntriesEqual(m, n) <==> StripEntries(m) == StripEntries(n) && NaNFreeEntries(m)
    ensures EntriesEqual(m, n) ==> Count(m) == Count(n)
    decreases m, 0
  {
    if m.Cons? && n.Cons? {
      EqualMeansSameTree(m.value, n.value);
      EntriesEqualMeansSame(m.rest, n.rest);
    }
  }

  // --------------------------------------------------------------------------- Trichotomy

  ghost predicate ExactlyOne(p: bool, q: bool, r: bool) {
    (p || q || r) && !(p && q) && !(p && r) && !(q && r)
  }

  /** The order ignores offsets. */
  lemma {:induction false} LessIgnoresOffsets(a: Value, b: Value)
    ensures Less(Strip(a), Strip(b)) == Less(a, b)
    decreases Size(a) + Size(b)
  {
    match (a.data, b.data)
    case (Array(m), Array(n)) => MapLessIgnoresOffsets(m, n);
    case (Object(m), Object(n)) => MapLessIgnoresOffsets(m, n);
    case _ =>
  }

  lemma {:induction false} MapLessIgnoresOffsets(m: Entries, n: Entries)
    ensures MapLess(StripEntries(m), StripEntries(n)) == MapLess(m, n)
    ensures EntriesLess(StripEntries(m), StripEntries(n)) == EntriesLess(m, n)
    decreases EntriesSize(m) + EntriesSize(n)
  {
    if m.Cons? && n.Cons? {
      LessIgnoresOffsets(m.value, n.value);
      LessIgnoresOffsets(n.value, m.value);
      MapLessIgnoresOffsets(m.rest, n.rest);
    }
    StripKeepsCount(m);
    StripKeepsCount(n);
    var m', n' := StripEntries(m), StripEntries(n);
    assert EntriesLess(m', n') == EntriesLess(m, n);
    assert MapLess(m', n') == if Count(m') != Count(n') then Count(m') < Count(n') else EntriesLess(m', n');
  }

  lemma {:induction false} StripKeepsCount(m: Entries)
    ensures Count(StripEntries(m)) == Count(m)
  {
    if m.Cons? {
      StripKeepsCount(m.rest);
    }
  }

  /** Of two NaN-free trees exactly one is smaller or they are equal. */
  lemma {:induction false} Trichotomy(a: Value, b: Value)
    requires Valid(a) && Valid(b) && NaNFree(a) && NaNFree(b)
    ensures ExactlyOne(Less(a, b), Less(b, a), Equal(a, b))
    decreases Size(a) + Size(b)
  {
    match (a.data, b.data)
    case (Array(m), Array(n)) => EntriesTrichotomy(m, n, true);
    case (Object(m), Object(n)) => EntriesTrichotomy(m, n, false);
    case (Str(s), Str(t)) =>
      if s != None && t != None {
        BytesTrichotomy(s.value, t.value);
      }
    case _ =>
  }

  lemma {:induction false} EntriesTrichotomy(m: Entries, n: Entries, isIndex: bool)
    requires KeysOfKind(m, isIndex) && KeysOfKind(n, isIndex)
    requires ValidEntries(m) && ValidEntries(n) && NaNFreeEntries(m) && NaNFreeEntries(n)
    ensures Count(m) == Count(n) ==> ExactlyOne(EntriesLess(m, n), EntriesLess(n, m), EntriesEqual(m, n))
    ensures EntriesEqual(m, n) ==> Count(m) == Count(n)
    decreases EntriesSize(m) + EntriesSize(n)
  {
    if m.Cons? && n.Cons? {
      KeyTrichotomy(m.key, n.key);
      Trichotomy(m.value, n.value);
      EntriesTrichotomy(m.rest, n.rest, isIndex);
    }
  }

  /** No tree is below itself, NaN or not. */
  lemma {:induction false} Irreflexive(a: Value)
    ensures !Less(a, a)
    decreases Size(a)
  {
    match a.data
    case Array(m) => EntriesIrreflexive(m);
    case Object(m) => EntriesIrreflexive(m);
    case Str(s) =>
      if s != None {
        BytesTrichotomy(s.value, s.value);
      }
    case _ =>
  }

  lemma {:induction false} EntriesIrreflexive(m: Entries)
    ensures !EntriesLess(m, m)
    decreases EntriesSize(m)
  {
    if m.Cons? {
      KeyTrichotomy(m.key, m.key);
      Irreflexive(m.value);
      EntriesIrreflexive(m.rest);
    }
  }

  // --------------------------------------------------------------------------- Transitivity

  /** A NaN-free, well-formed tree with zero offsets: on these, equality is identity. */
  ghost predicate Canonical(v: Value) {
    Valid(v) && NaNFree(v) && Strip(v) == v
  }

  ghost predicate CanonicalEntries(m: Entries, isIndex: bool) {
    KeysOfKind(m, isIndex) && ValidEntries(m) && NaNFreeEntries(m) && StripEntries(m) == m
  }

  lemma {:induction false} CanonicalTrichotomy(a: Value, b: Value)
    requires Canonical(a) && Canonical(b)
    ensures ExactlyOne(Less(a, b), Less(b, a), a == b)
  {
    Trichotomy(a, b);
    EqualMeansSameTree(a, b);
  }

  lemma {:induction false} CanonicalTransitive(a: Value, b: Value, c: Value)
    requires Canonical(a) && Canonical(b) && Canonical(c)
    requires Less(a, b) && Less(b, c)
    ensures Less(a, c)
    decreases Size(a) + Size(b) + Size(c)
  {
    if Tag(a.data) == Tag(b.data) == Tag(c.data) {
      match a.data
      case Array(m) =>
        if Count(m) == Count(b.data.entries) == Count(c.data.entries) {
          EntriesTransitive(m, b.data.entries, c.data.entries, true);
        }
      case Object(m) =>
        if Count(m) == Count(b.data.entries) == Count(c.data.entries) {
          EntriesTransitive(m, b.data.entries, c.data.entries, false);
        }
      case Str(s) =>
        if s != None && b.data.s != None && c.data.s != None {
          BytesTransitive(s.value, b.data.s.value, c.data.s.value);
        }
      case _ =>
    }
  }

  lemma {:induction false} EntriesTransitive(m: Entries, n: Entries, o: Entries, isIndex: bool)
    requires CanonicalEntries(m, isIndex) && CanonicalEntries(n, isIndex) && CanonicalEntries(o, isIndex)
    requires EntriesLess(m, n) && EntriesLess(n, o)
    ensures EntriesLess(m, o)
    decreases EntriesSize(m) + EntriesSize(n) + EntriesSize(o)
  {
    if m.Cons? {
      PairTrichotomy(m.key, m.value, n.key, n.value);
      PairTrichotomy(n.key, n.value, o.key, o.value);
      if PairLess(m.key, m.value, n.key, n.value) && PairLess(n.key, n.value, o.key, o.value) {
        PairTransitive(m.key, m.value, n.key, n.value, o.key, o.value);
      } else if m.key == n.key == o.key && m.value == n.value == o.value {
        EntriesTransitive(m.rest, n.rest, o.rest, isIndex);
      }
    }
  }

  lemma {:induction false} PairTrichotomy(k: Key, v: Value, k': Key, v': Value)
    requires SameKind(k, k') && Canonical(v) && Canonical(v')
    ensures ExactlyOne(PairLess(k, v, k', v'), PairLess(k', v', k, v), k == k' && v == v')
  {
    KeyTrichotomy(k, k');
    CanonicalTrichotomy(v, v');
  }

  lemma {:induction false} PairTransitive(k: Key, v: Value, k': Key, v': Value, k'': Key, v'': Value)
    requires SameKind(k, k') && SameKind(k', k'')
    requires Canonical(v) && Canonical(v') && Canonical(v'')
    requires PairLess(k, v, k', v') && PairLess(k', v', k'', v'')
    ensures PairLess(k, v, k'', v'')
    decreases Size(v) + Size(v') + Size(v'') + 1
  {
    KeyTrichotomy(k, k');
    KeyTrichotomy(k', k'');
    KeyTrichotomy(k, k'');
    if KeyLess(k, k') && KeyLess(k', k'') {
      KeyTransitive(k, k', k'');
    } else if k == k' && k' == k'' {
      CanonicalTransitive(v, v', v'');
    }
  }

  // --------------------------------------------------------------------------- Main results

  lemma {:induction false} StripKeepsShape(v: Value)
    ensures Valid(v) ==> Valid(Strip(v))
    ensures NaNFree(v) ==> NaNFree(Strip(v))
    decreases v, 0
  {
    match v.data
    case Array(m) => StripEntriesKeepsShape(m);
    case Object(m) => StripEntriesKeepsShape(m);
    case _ =>
  }

  lemma {:induction false} StripEntriesKeepsShape(m: Entries)
    ensures ValidEntries(m) ==> ValidEntries(StripEntries(m))
    ensures NaNFreeEntries(m) ==> NaNFreeEntries(StripEntries(m))
    ensures Sorted(m) ==> Sorted(StripEntries(m))
    ensures forall kind :: KeysOfKind(m, kind) ==> KeysOfKind(StripEntries(m), kind)
    decreases m, 0
  {
    if m.Cons? {
      StripKeepsShape(m.value);
      StripEntriesKeepsShape(m.rest);
    }
  }

  /** The order is transitive on NaN-free trees of any shape and offsets. */
  lemma {:induction false} Transitive(a: Value, b: Value, c: Value)
    requires Valid(a) && Valid(b) && Valid(c) && NaNFree(a) && NaNFree(b) && NaNFree(c)
    requires Less(a, b) && Less(b, c)
    ensures Less(a, c)
  {
    forall v | v in {a, b, c} ensures Canonical(Strip(v)) {
      StripKeepsShape(v);
      StripIdempotent(v);
    }
    LessIgnoresOffsets(a, b);
    LessIgnoresOffsets(b, c);
    LessIgnoresOffsets(a, c);
    CanonicalTransitive(Strip(a), Strip(b), Strip(c));
  }

  /** `compare` returns 0 exactly on equal trees and changes sign when its arguments swap. */
  lemma {:induction false} CompareAgrees(a: Value, b: Value)
    requires Valid(a) && Valid(b) && NaNFree(a) && NaNFree(b)
    ensures Compare(a, b) == 0 <==> Equal(a, b)
    ensures Compare(b, a) == -Compare(a, b)
  {
    Trichotomy(a, b);
    EqualMeansSameTree(a, b);
    EqualMeansSameTree(b, a);
  }

  /**
   Equality is reflexive exactly on the NaN-free trees; `compare` reports 0 for every tree against
   itself. So with a NaN inside, `compare` and equality disagree.
   */
  lemma {:induction false} ReflexiveIffNaNFree(a: Value)
    ensures Equal(a, a) <==> NaNFree(a)
    ensures Compare(a, a) == 0
  {
    EqualMeansSameTree(a, a);
    Irreflexive(a);
  }
}
