/**
 What the order of value trees means: types in the order of their enumeration, numbers by size, false
 before true, strings and names by their first difference, containers by their number of entries and then
 by the first entry that differs.
 */
module JsonRanking {
  import opened Bytes
  import opened JsonValue
  import opened JsonOrder

  predicate TypeBefore(a: Data, b: Data) {
    || (a.Null? && !b.Null?)
    || (a.Int? && !b.Null? && !b.Int?)
    || (a.UInt? && (b.Real? || b.Str? || b.Bool? || b.Array? || b.Object?))
    || (a.Real? && (b.Str? || b.Bool? || b.Array? || b.Object?))
    || (a.Str? && (b.Bool? || b.Array? || b.Object?))
    || (a.Bool? && (b.Array? || b.Object?))
    || (a.Array? && b.Object?)
  }

  predicate DoubleBefore(a: Double, b: Double) {
    || (a.Finite? && b.Finite? && a.r < b.r)
    || (a.NegativeInfinity? && (b.Finite? || b.PositiveInfinity?))
    || (a.Finite? && b.PositiveInfinity?)
  }

  /** A proper beginning, or the smaller byte at the first difference. */
  predicate BytesBefore(s: bytes, t: bytes) {
    (|s| < |t| && t[..|s|] == s) || exists k :: 0 <= k < |s| && k < |t| && s[..k] == t[..k] && s[k] < t[k]
  }

  predicate KeyBefore(k: Key, k': Key) {
    (k.Index? && k'.Index? && k.n < k'.n) || (k.Name? && k'.Name? && BytesBefore(k.s, k'.s))
  }

  function KeyAt(m: Entries, k: nat): Key
    requires k < Count(m)
  {
    if k == 0 then m.key else KeyAt(m.rest, k - 1)
  }

  function ValueAt(m: Entries, k: nat): (v: Value)
    requires k < Count(m)
    ensures Size(v) <= EntriesSize(m)
  {
    if k == 0 then m.value else ValueAt(m.rest, k - 1)
  }

  predicate SameAt(m: Entries, n: Entries, k: nat)
    requires k < Count(m) && k < Count(n)
  {
    KeyAt(m, k) == KeyAt(n, k) && Strip(ValueAt(m, k)) == Strip(ValueAt(n, k))
  }

  /** The first position at which the entries differ, offsets apart, or where one list ends. */
  function FirstDifference(m: Entries, n: Entries): (k: nat)
    ensures k <= Count(m) && k <= Count(n)
    ensures forall j :: 0 <= j < k ==> SameAt(m, n, j)
    ensures k < Count(m) && k < Count(n) ==> !SameAt(m, n, k)
  {
    if m.Nil? || n.Nil? || m.key != n.key || Strip(m.value) != Strip(n.value) then 0
    else
      var k := FirstDifference(m.rest, n.rest);
      assert forall j :: 0 < j < k + 1 ==> SameAt(m.rest, n.rest, j - 1) == SameAt(m, n, j);
      k + 1
  }

  predicate EntriesBefore(m: Entries, n: Entries)
    decreases EntriesSize(m) + EntriesSize(n)
  {
    var k := FirstDifference(m, n);
    || Count(m) < Count(n)
    || (Count(m) == Count(n) && k < Count(m) &&
        (KeyBefore(KeyAt(m, k), KeyAt(n, k)) ||
         (KeyAt(m, k) == KeyAt(n, k) && Before(ValueAt(m, k), ValueAt(n, k)))))
  }

  predicate Before(a: Value, b: Value)
    decreases Size(a) + Size(b)
  {
    match (a.data, b.data)
    case (Int(x), Int(y)) => x < y
    case (UInt(x), UInt(y)) => x < y
    case (Real(x), Real(y)) => DoubleBefore(x, y)
    case (Bool(x), Bool(y)) => x == false && y == true
    case (Str(s), Str(t)) => t.Some? && (s.Some? ==> BytesBefore(s.value, t.value))
    case (Array(m), Array(n)) => EntriesBefore(m, n)
    case (Object(m), Object(n)) => EntriesBefore(m, n)
    case _ => TypeBefore(a.data, b.data)
  }

  // --------------------------------------------------------------------------- Strings and keys

  lemma {:induction false} BytesLessMeans(s: bytes, t: bytes)
    ensures BytesLess(s, t) <==> BytesBefore(s, t)
    decreases |s|
  {
    hide Memcmp, BytesLess;
    BytesLessUnfolds(s, t);
    if s != [] && t != [] && s[0] == t[0] {
      BytesLessMeans(s[1..], t[1..]);
      LaterDifference(s, t);
    } else if s != [] && t != [] && s[0] < t[0] {
      assert s[..0] == t[..0];
    } else if s != [] && t != [] {
      assert forall k :: 0 < k <= |s| && k <= |t| ==> s[..k][0] != t[..k][0];
    }
  }

  /** A first difference behind the same first byte. */
  lemma {:induction false} DifferenceMoves(s: bytes, t: bytes, k: nat)
    requires s != [] && t != [] && s[0] == t[0] && k + 1 < |s| && k + 1 < |t|
    ensures s[..k + 1] == t[..k + 1] <==> s[1..][..k] == t[1..][..k]
  {
    assert s[..k + 1] == [s[0]] + s[1..][..k] && t[..k + 1] == [t[0]] + t[1..][..k];
    assert s[..k + 1][1..] == s[1..][..k] && t[..k + 1][1..] == t[1..][..k];
  }

  lemma {:induction false} LaterDifference(s: bytes, t: bytes)
    requires s != [] && t != [] && s[0] == t[0]
    ensures BytesBefore(s, t) <==> BytesBefore(s[1..], t[1..])
  {
    var u, v := s[1..], t[1..];
    BeginningMoves(s, t);
    if BytesBefore(s, t) && !(|s| < |t| && t[..|s|] == s) {
      var k :| 0 <= k < |s| && k < |t| && s[..k] == t[..k] && s[k] < t[k];
      DifferenceMoves(s, t, k - 1);
      assert u[..k - 1] == v[..k - 1] && u[k - 1] < v[k - 1];
    }
    if BytesBefore(u, v) && !(|u| < |v| && v[..|u|] == u) {
      var k :| 0 <= k < |u| && k < |v| && u[..k] == v[..k] && u[k] < v[k];
      DifferenceMoves(s, t, k);
      assert s[..k + 1] == t[..k + 1] && s[k + 1] < t[k + 1];
    }
  }

  lemma {:induction false} BeginningMoves(s: bytes, t: bytes)
    requires s != [] && t != [] && s[0] == t[0]
    ensures |s| < |t| && t[..|s|] == s <==> |s[1..]| < |t[1..]| && t[1..][..|s[1..]|] == s[1..]
  {
    assert s == [s[0]] + s[1..];
    if |s| < |t| {
      assert t[..|s|] == [t[0]] + t[1..][..|s[1..]|];
    }
  }

  lemma {:induction false} KeyLessMeans(k: Key, k': Key)
    requires SameKind(k, k')
    ensures KeyLess(k, k') <==> KeyBefore(k, k')
  {
    hide BytesLess, BytesBefore;
    if k.Name? {
      BytesLessMeans(k.s, k'.s);
    }
  }

  // --------------------------------------------------------------------------- Entries

  lemma EntriesLessStep(m: Entries, n: Entries)
    requires m.Cons? && n.Cons?
    ensures EntriesLess(m, n) ==
            if PairLess(m.key, m.value, n.key, n.value) then true
            else if PairLess(n.key, n.value, m.key, m.value) then false
            else EntriesLess(m.rest, n.rest)
  {
  }

  /** The same first entry does not count. */
  lemma {:induction false} SameFirst(m: Entries, n: Entries)
    requires m.Cons? && n.Cons? && m.key == n.key && Strip(m.value) == Strip(n.value) && Count(m) == Count(n)
    ensures EntriesBefore(m, n) <==> EntriesBefore(m.rest, n.rest)
  {
    hide Strip, KeyBefore;
    var k := FirstDifference(m.rest, n.rest);
    assert FirstDifference(m, n) == k + 1;
    if k < Count(m.rest) {
      assert KeyAt(m, k + 1) == KeyAt(m.rest, k) && KeyAt(n, k + 1) == KeyAt(n.rest, k);
      assert ValueAt(m, k + 1) == ValueAt(m.rest, k) && ValueAt(n, k + 1) == ValueAt(n.rest, k);
    }
  }

  lemma {:induction false} DifferentFirst(m: Entries, n: Entries)
    requires m.Cons? && n.Cons? && !(m.key == n.key && Strip(m.value) == Strip(n.value)) && Count(m) == Count(n)
    ensures EntriesBefore(m, n) <==> KeyBefore(m.key, n.key) || (m.key == n.key && Before(m.value, n.value))
  {
    hide Strip, KeyBefore;
    assert FirstDifference(m, n) == 0;
  }

  /** For lists of one length, going through both together finds the first entry that differs. */
  lemma {:induction false} EntriesLessMeans(m: Entries, n: Entries, isIndex: bool)
    requires KeysOfKind(m, isIndex) && KeysOfKind(n, isIndex) && ValidEntries(m) && ValidEntries(n)
    requires NaNFreeEntries(m) && NaNFreeEntries(n) && Count(m) == Count(n)
    ensures EntriesLess(m, n) <==> EntriesBefore(m, n)
    decreases EntriesSize(m) + EntriesSize(n), 0
  {
    if m.Cons? {
      hide Less, Before, KeyLess, KeyBefore, Strip, Equal, NaNFree, Valid, PairLess, EntriesBefore;
      EntriesLessStep(m, n);
      PairMeans(m.key, m.value, n.key, n.value);
      EntriesLessMeans(m.rest, n.rest, isIndex);
      if m.key == n.key && Strip(m.value) == Strip(n.value) {
        SameFirst(m, n);
      } else {
        DifferentFirst(m, n);
      }
    }
  }

  /** An entry is smaller by key or by value; when neither is smaller, they are the same. */
  lemma {:induction false} PairMeans(k: Key, v: Value, k': Key, v': Value)
    requires SameKind(k, k') && Valid(v) && Valid(v') && NaNFree(v) && NaNFree(v')
    ensures PairLess(k, v, k', v') <==> KeyBefore(k, k') || (k == k' && Before(v, v'))
    ensures PairLess(k, v, k', v') ==> !PairLess(k', v', k, v)
    ensures !PairLess(k, v, k', v') && !PairLess(k', v', k, v) <==> k == k' && Strip(v) == Strip(v')
    decreases Size(v) + Size(v') + 1
  {
    hide Less, Before, KeyLess, KeyBefore, Strip, Equal, NaNFree, Valid;
    KeyTrichotomy(k, k');
    KeyLessMeans(k, k');
    LessMeans(v, v');
    Trichotomy(v, v');
    EqualMeansSameTree(v, v');
  }

  lemma {:induction false} MapLessMeans(m: Entries, n: Entries, isIndex: bool)
    requires KeysOfKind(m, isIndex) && KeysOfKind(n, isIndex) && ValidEntries(m) && ValidEntries(n)
    requires NaNFreeEntries(m) && NaNFreeEntries(n)
    ensures MapLess(m, n) <==> EntriesBefore(m, n)
    decreases EntriesSize(m) + EntriesSize(n), 1
  {
    if Count(m) == Count(n) {
      hide PairLess, Less, Before;
      EntriesLessMeans(m, n, isIndex);
    }
  }

  // --------------------------------------------------------------------------- Main results

  /** The order of NaN-free trees is what it is described as. */
  lemma {:induction false} LessMeans(a: Value, b: Value)
    requires Valid(a) && Valid(b) && NaNFree(a) && NaNFree(b)
    ensures Less(a, b) <==> Before(a, b)
    decreases Size(a) + Size(b)
  {
    hide BytesLess, BytesBefore, EntriesLess, FirstDifference;
    match (a.data, b.data)
    case (Array(m), Array(n)) => MapLessMeans(m, n, true);
    case (Object(m), Object(n)) => MapLessMeans(m, n, false);
    case (Str(s), Str(t)) =>
      if s.Some? && t.Some? {
        BytesLessMeans(s.value, t.value);
      }
    case _ =>
  }

  /** `compare` is negative, positive or zero as the first tree comes before the second, behind it, or is the same. */
  lemma {:induction false} CompareMeans(a: Value, b: Value)
    requires Valid(a) && Valid(b) && NaNFree(a) && NaNFree(b)
    ensures Compare(a, b) == -1 <==> Before(a, b)
    ensures Compare(a, b) == 1 <==> Before(b, a)
    ensures Compare(a, b) == 0 <==> Strip(a) == Strip(b)
  {
    hide Less, Before, Equal;
    LessMeans(a, b);
    LessMeans(b, a);
    Trichotomy(a, b);
    EqualMeansSameTree(a, b);
  }
}
