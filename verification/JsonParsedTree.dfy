/** The trees the reader builds: well formed, and with dense arrays only. */
module JsonParsedTree {
  import opened Bytes
  import opened JsonString
  import opened JsonValue
  import opened JsonLexer
  import opened JsonParser
  import opened JsonArray

  /** The keys are the indices from `i` on, without a gap. */
  predicate DenseFrom(m: Entries, i: nat) {
    match m
    case Nil => true
    case Cons(k, _, rest) => k == Index(i) && DenseFrom(rest, i + 1)
  }

  /** Every array in the tree is dense. */
  predicate AllDense(v: Value) {
    match v.data
    case Array(m) => DenseFrom(m, 0) && AllDenseEntries(m)
    case Object(m) => AllDenseEntries(m)
    case _ => true
  }

  predicate AllDenseEntries(m: Entries) {
    match m
    case Nil => true
    case Cons(_, v, rest) => AllDense(v) && AllDenseEntries(rest)
  }

  predicate Sound(v: Value) {
    Valid(v) && AllDense(v)
  }

  /** No gap means no missing slot. */
  lemma {:induction false} DenseFromIsDense(m: Entries, i: nat)
    requires DenseFrom(m, i)
    ensures IsArrayMap(m) && ArraySize(m) == if m.Nil? then 0 else i + Count(m)
    ensures forall j: nat :: Slot(m, j).Some? <==> i <= j < i + Count(m)
    ensures i == 0 ==> Dense(m)
  {
    if m.Cons? {
      DenseFromIsDense(m.rest, i + 1);
      forall j: nat ensures Slot(m, j).Some? <==> i <= j < i + Count(m) {
        assert i < j ==> Slot(m, j) == Slot(m.rest, j);
      }
    }
  }

  lemma {:induction false} SetNext(m: Entries, i: nat, v: Value)
    requires DenseFrom(m, i) && AllDenseEntries(m) && ValidEntries(m) && Sound(v)
    ensures
      var m' := Set(m, Index(i + Count(m)), v);
      DenseFrom(m', i) && AllDenseEntries(m') && ValidEntries(m') && Count(m') == Count(m) + 1
  {
    if m.Cons? {
      SetNext(m.rest, i + 1, v);
    }
  }

  lemma {:induction false} SetMember(m: Entries, key: Key, v: Value)
    requires AllDenseEntries(m) && AllDense(v)
    ensures AllDenseEntries(Set(m, key, v))
  {
    if m.Cons? {
      SetMember(m.rest, key, v);
    }
  }

  lemma {:induction false} EmptySound(v: Value)
    requires v.data == Array(Nil) || v.data == Object(Nil)
    ensures Sound(v)
  {
    assert Sorted(Nil) && ValidEntries(Nil) && AllDenseEntries(Nil) && KeysOfKind(Nil, v.data.Array?);
  }

  lemma {:induction false} ValueSound(s: Source, p: nat, depth: int, cur: Value)
    requires p <= |s.doc|
    ensures var r := ParseValue(s, p, depth, cur); r.Returned? && r.ok ==> Sound(r.value)
    decreases |s.doc| - p, 0
  {
    hide FirstToken, ParseMembers, ParseArray, DecodeText;
    if depth < STACK_LIMIT {
      var t := FirstToken(s, p);
      if t.kind == ObjectBegin {
        EmptySound(Value(Object(Nil), t.start, cur.limit));
        MembersSound(s, t.end, depth + 1, Value(Object(Nil), t.start, cur.limit), []);
      } else if t.kind == ArrayBegin {
        ArraySound(s, t.end, depth + 1, Value(Array(Nil), t.start, cur.limit));
      }
    }
  }

  lemma {:induction false} MembersSound(s: Source, p: nat, depth: int, obj: Value, name: bytes)
    requires p <= |s.doc| && obj.data.Object? && Sound(obj)
    ensures var r := ParseMembers(s, p, depth, obj, name); r.Returned? && r.ok ==>
            r.value.data.Object? && Sound(r.value)
    decreases |s.doc| - p, 1
  {
    hide MemberName, ParseValue, MemberFollow, RecoverTo, Set;
    var step := MemberName(s, p, name);
    if step.Named? {
      var key := Name(step.key);
      var child := ParseValue(s, step.pos, depth, Get(EntriesOf(obj), key));
      ValueSound(s, step.pos, depth, Get(EntriesOf(obj), key));
      if child.Returned? && child.ok {
        var obj' := SetChild(obj, key, child.value);
        SetSorted(obj.data.entries, key, child.value);
        SetValid(obj.data.entries, key, child.value);
        SetMember(obj.data.entries, key, child.value);
        var follow := MemberFollow(s, child.pos);
        if follow.More? {
          MembersSound(s, follow.pos, depth, obj', step.key);
        }
      }
    }
  }

  lemma {:induction false} ArraySound(s: Source, p: nat, depth: int, arr: Value)
    requires p <= |s.doc| && arr.data == Array(Nil)
    ensures var r := ParseArray(s, p, depth, arr); r.Returned? && r.ok ==> r.value.data.Array? && Sound(r.value)
    decreases |s.doc| - p, 2
  {
    hide ParseElements, SkipSpaces;
    EmptySound(arr);
    var q := SkipSpaces(s.doc, p);
    if CharAt(s.doc, q) != RIGHT_BRACKET {
      ElementsSound(s, q, depth, arr, 0);
    }
  }

  lemma {:induction false} ElementsSound(s: Source, p: nat, depth: int, arr: Value, index: nat)
    requires p <= |s.doc| && arr.data.Array? && Sound(arr) && index == Count(arr.data.entries)
    ensures var r := ParseElements(s, p, depth, arr, index); r.Returned? && r.ok ==>
            r.value.data.Array? && Sound(r.value)
    decreases |s.doc| - p, 1
  {
    hide ParseValue, ElementFollow, RecoverTo, Set;
    var cur := Get(EntriesOf(arr), Index(index));
    var child := ParseValue(s, p, depth, cur);
    ValueSound(s, p, depth, cur);
    if child.Returned? && child.ok {
      SetNext(arr.data.entries, 0, child.value);
      DenseFromIsDense(Set(arr.data.entries, Index(index), child.value), 0);
      var follow := ElementFollow(s, child.pos);
      if follow.More? {
        ElementsSound(s, follow.pos, depth, SetChild(arr, Index(index), child.value), index + 1);
      }
    }
  }

  /** What a successful parse returns: a well-formed tree in which no array slot is missing. */
  lemma {:induction false} DocumentSound(s: Source, root: Value)
    ensures var r := ParseDocument(s, root); r.Returned? && r.ok ==> Valid(r.value) && AllDense(r.value)
  {
    hide ParseValue;
    ValueSound(s, 0, 0, root);
  }
}
