/**
 The value tree (value.h, json_value.cpp). Arrays and objects share one ordered map from keys to
 values, as in the source, where a key is an array index or a member name; the map is held as the
 list of its entries in key order. `start` and `limit` are the byte offsets the reader records.
 */
module JsonValue {
  import opened Bytes
  import opened JsonNumber

  /** A double; finite ones are compared as real numbers. */
  datatype Double = NaN | NegativeInfinity | Finite(r: real) | PositiveInfinity

  datatype Key = Index(n: nat) | Name(s: bytes)

  datatype Value = Value(data: Data, start: int, limit: int)

  datatype Data =
    | Null
    | Int(i: int64)
    | UInt(u: uint64)
    | Real(d: Double)
    | Str(s: Option<bytes>)  // a string value may hold no string at all
    | Bool(b: bool)
    | Array(entries: Entries)
    | Object(entries: Entries)

  datatype Entries = Nil | Cons(key: Key, value: Value, rest: Entries)

  const NULL_VALUE: Value := Value(Null, 0, 0)

  function Plain(data: Data): Value {
    Value(data, 0, 0)
  }

  // --------------------------------------------------------------------------- Keys

  /** Byte comparison of the first `n` bytes: the sign of the first difference. */
  function Memcmp(a: bytes, b: bytes, n: nat): int
    requires n <= |a| && n <= |b|
    decreases n
  {
    if n == 0 then 0
    else if a[0] != b[0] then (if a[0] < b[0] then -1 else 1)
    else Memcmp(a[1..], b[1..], n - 1)
  }

  predicate BytesLess(a: bytes, b: bytes) {
    var minLength := if |a| < |b| then |a| else |b|;
    var comp := Memcmp(a, b, minLength);
    comp < 0 || (comp == 0 && |a| < |b|)
  }

  predicate KeyLess(a: Key, b: Key) {
    match (a, b)
    case (Index(m), Index(n)) => m < n
    case (Name(s), Name(t)) => BytesLess(s, t)
    case _ => false
  }

  lemma BytesLessUnfolds(a: bytes, b: bytes)
    ensures BytesLess(a, b) ==
            if b == [] then false
            else if a == [] then true
            else if a[0] != b[0] then a[0] < b[0]
            else BytesLess(a[1..], b[1..])
  {
  }

  lemma {:induction false} BytesTrichotomy(a: bytes, b: bytes)
    ensures !(BytesLess(a, b) && BytesLess(b, a))
    ensures a == b <==> !BytesLess(a, b) && !BytesLess(b, a)
  {
    BytesLessUnfolds(a, b);
    BytesLessUnfolds(b, a);
    if a != [] && b != [] && a[0] == b[0] {
      BytesTrichotomy(a[1..], b[1..]);
      assert a == [a[0]] + a[1..] && b == [b[0]] + b[1..];
    }
  }

  lemma {:induction false} BytesTransitive(a: bytes, b: bytes, c: bytes)
    requires BytesLess(a, b) && BytesLess(b, c)
    ensures BytesLess(a, c)
  {
    BytesLessUnfolds(a, b);
    BytesLessUnfolds(b, c);
    BytesLessUnfolds(a, c);
    if a != [] && a[0] == b[0] && b[0] == c[0] {
      BytesTransitive(a[1..], b[1..], c[1..]);
    }
  }

  predicate SameKind(a: Key, b: Key) {
    a.Index? == b.Index?
  }

  lemma {:induction false} KeyTrichotomy(a: Key, b: Key)
    requires SameKind(a, b)
    ensures !(KeyLess(a, b) && KeyLess(b, a))
    ensures a == b <==> !KeyLess(a, b) && !KeyLess(b, a)
  {
    if a.Name? {
      BytesTrichotomy(a.s, b.s);
    }
  }

  lemma {:induction false} KeyTransitive(a: Key, b: Key, c: Key)
    requires KeyLess(a, b) && KeyLess(b, c)
    ensures KeyLess(a, c)
  {
    if a.Name? {
      BytesTransitive(a.s, b.s, c.s);
    }
  }

  // --------------------------------------------------------------------------- The ordered map

  function Count(m: Entries): nat {
    match m
    case Nil => 0
    case Cons(_, _, rest) => 1 + Count(rest)
  }

  function Find(m: Entries, key: Key): Option<Value> {
    match m
    case Nil => None
    case Cons(k, v, rest) =>
      if KeyLess(k, key) then Find(rest, key) else if k == key then Some(v) else None
  }

  /** The value under `key`, or the null value: a read-only subscript. */
  function Get(m: Entries, key: Key): Value {
    match Find(m, key)
    case Some(v) => v
    case None => NULL_VALUE
  }

  /** Finds the first key not below `key` and assigns there or inserts before it. */
  function Set(m: Entries, key: Key, value: Value): Entries {
    match m
    case Nil => Cons(key, value, Nil)
    case Cons(k, v, rest) =>
      if KeyLess(k, key) then Cons(k, v, Set(rest, key, value))
      else if k == key then Cons(k, value, rest)
      else Cons(key, value, m)
  }

  function Erase(m: Entries, key: Key): Entries {
    match m
    case Nil => Nil
    case Cons(k, v, rest) =>
      if KeyLess(k, key) then Cons(k, v, Erase(rest, key)) else if k == key then rest else m
  }

  /** Keys strictly increase and are all indices or all names. */
  predicate Sorted(m: Entries) {
    match m
    case Nil => true
    case Cons(k, _, rest) => Sorted(rest) && (rest.Cons? ==> KeyLess(k, rest.key))
  }

  predicate KeysOfKind(m: Entries, isIndex: bool) {
    match m
    case Nil => true
    case Cons(k, _, rest) => k.Index? == isIndex && KeysOfKind(rest, isIndex)
  }

  /** The number of elements of an array: its highest index plus one. */
  function ArraySize(m: Entries): nat {
    match m
    case Nil => 0
    case Cons(k, _, rest) =>
      if rest.Nil? then (if k.Index? then k.n + 1 else 0) else ArraySize(rest)
  }

  /** The well-formed trees: what the value class can build. */
  predicate Valid(v: Value) {
    match v.data
    case Array(m) => Sorted(m) && KeysOfKind(m, true) && ValidEntries(m)
    case Object(m) => Sorted(m) && KeysOfKind(m, false) && ValidEntries(m)
    case _ => true
  }

  predicate ValidEntries(m: Entries) {
    match m
    case Nil => true
    case Cons(_, v, rest) => Valid(v) && ValidEntries(rest)
  }

  /** The same tree with all offsets zero. */
  function Strip(v: Value): Value {
    Plain(match v.data
          case Array(m) => Array(StripEntries(m))
          case Object(m) => Object(StripEntries(m))
          case d => d)
  }

  function StripEntries(m: Entries): Entries {
    match m
    case Nil => Nil
    case Cons(k, v, rest) => Cons(k, Strip(v), StripEntries(rest))
  }

  // Laws of the ordered map.

  /** All keys of a sorted list are at least its first key. */
  lemma {:induction false} FindBelow(m: Entries, key: Key)
    requires Sorted(m)
    requires m.Cons? ==> SameKind(key, m.key) && KeyLess(key, m.key)
    ensures Find(m, key) == None
  {
    if m.Cons? {
      KeyTrichotomy(key, m.key);
    }
  }

  lemma {:induction false} FindAfterSet(m: Entries, key: Key, value: Value, other: Key)
    requires Sorted(m) && KeysOfKind(m, key.Index?) && SameKind(key, other)
    ensures Find(Set(m, key, value), other) == if other == key then Some(value) else Find(m, other)
  {
    KeyTrichotomy(key, other);
    if m.Cons? {
      KeyTrichotomy(m.key, key);
      KeyTrichotomy(m.key, other);
      FindAfterSet(m.rest, key, value, other);
      if KeyLess(key, m.key) && KeyLess(other, key) {
        KeyTransitive(other, key, m.key);
      }
    }
  }

  lemma {:induction false} SetSorted(m: Entries, key: Key, value: Value)
    requires Sorted(m) && KeysOfKind(m, key.Index?)
    ensures Sorted(Set(m, key, value)) && KeysOfKind(Set(m, key, value), key.Index?)
    ensures Set(m, key, value).Cons?
    ensures m.Cons? && KeyLess(m.key, key) ==> Set(m, key, value).key == m.key
    ensures m.Nil? || !KeyLess(m.key, key) ==> Set(m, key, value).key == key
  {
    if m.Cons? {
      KeyTrichotomy(m.key, key);
      SetSorted(m.rest, key, value);
    }
  }

  lemma {:induction false} SetValid(m: Entries, key: Key, value: Value)
    requires ValidEntries(m) && Valid(value)
    ensures ValidEntries(Set(m, key, value))
  {
    if m.Cons? {
      SetValid(m.rest, key, value);
    }
  }

  lemma {:induction false} EraseSorted(m: Entries, key: Key)
    requires Sorted(m) && KeysOfKind(m, key.Index?)
    ensures Sorted(Erase(m, key)) && KeysOfKind(Erase(m, key), key.Index?)
    ensures m.Cons? && m.key != key ==> Erase(m, key).Cons? && Erase(m, key).key == m.key
    ensures m.Cons? && m.key == key ==> Erase(m, key) == m.rest
  {
    if m.Cons? {
      KeyTrichotomy(m.key, key);
      EraseSorted(m.rest, key);
      if m.rest.Cons? && m.rest.key == key && m.rest.rest.Cons? {
        KeyTransitive(m.key, key, m.rest.rest.key);
      }
    }
  }

  lemma {:induction false} FindAfterErase(m: Entries, key: Key, other: Key)
    requires Sorted(m) && KeysOfKind(m, key.Index?) && SameKind(key, other)
    ensures Find(Erase(m, key), other) == if other == key then None else Find(m, other)
  {
    KeyTrichotomy(key, other);
    if m.Cons? {
      KeyTrichotomy(m.key, key);
      KeyTrichotomy(m.key, other);
      FindAfterErase(m.rest, key, other);
      if m.key == key && m.rest.Cons? {
        if other == key || KeyLess(other, key) {
          if KeyLess(other, key) {
            KeyTransitive(other, key, m.rest.key);
          }
          FindBelow(m.rest, other);
        }
      } else if KeyLess(key, m.key) && other == key {
        KeyTrichotomy(other, m.key);
      }
    }
  }

  lemma {:induction false} StripSet(m: Entries, key: Key, value: Value)
    ensures StripEntries(Set(m, key, value)) == Set(StripEntries(m), key, Strip(value))
  {
    if m.Cons? {
      StripSet(m.rest, key, value);
    }
  }

  lemma {:induction false} StripIdempotent(v: Value)
    ensures Strip(Strip(v)) == Strip(v)
    decreases v, 0
  {
    match v.data
    case Array(m) => StripEntriesIdempotent(m);
    case Object(m) => StripEntriesIdempotent(m);
    case _ =>
  }

  lemma {:induction false} StripEntriesIdempotent(m: Entries)
    ensures StripEntries(StripEntries(m)) == StripEntries(m)
    decreases m, 0
  {
    if m.Cons? {
      StripIdempotent(m.value);
      StripEntriesIdempotent(m.rest);
    }
  }
}
