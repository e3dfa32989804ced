/**
 The offsets the reader records: they nest, array elements come one after the other, and the slice
 between the offsets of any node reads back as that node.
 */
module JsonOffsets {
  import opened Bytes
  import opened JsonString
  import opened JsonValue
  import opened JsonLexer
  import opened JsonParser
  import opened JsonReading
  import opened JsonWindow

  /** Reading the slice between the offsets gives the node again. */
  ghost predicate ReadsAlone(s: Source, v: Value) {
    && 0 <= v.start < v.limit <= |s.doc|
    && forall was: Value ::
        var r := ParseValue(Cut(s, v.start, v.limit), 0, 0, was);
        r.Returned? && r.ok && r.pos == v.limit - v.start && Strip(r.value) == Strip(v)
  }

  /** Between `lo` and `hi`, the offsets of the node and of everything below it are in order. */
  ghost predicate Placed(s: Source, v: Value, lo: int, hi: int)
    decreases v, 0
  {
    && lo <= v.start && v.limit <= hi && ReadsAlone(s, v)
    && match v.data
       case Array(m) => ElementsPlaced(s, m, v.start + 1, v.limit - 1)
       case Object(m) => MembersPlaced(s, m, v.start + 1, v.limit - 1)
       case _ => true
  }

  /** Each element ends before the next begins. */
  ghost predicate ElementsPlaced(s: Source, m: Entries, lo: int, hi: int)
    decreases m, 0
  {
    match m
    case Nil => true
    case Cons(_, v, rest) => Placed(s, v, lo, hi) && ElementsPlaced(s, rest, v.limit + 1, hi)
  }

  /** The node lies before or behind each of the others, with a gap. */
  predicate Apart(v: Value, others: Entries) {
    match others
    case Nil => true
    case Cons(_, w, rest) => (v.limit < w.start || w.limit < v.start) && Apart(v, rest)
  }

  /** Members are kept in key order and may replace one another, but no two of them overlap. */
  ghost predicate MembersPlaced(s: Source, m: Entries, lo: int, hi: int)
    decreases m, 0
  {
    match m
    case Nil => true
    case Cons(_, v, rest) => Placed(s, v, lo, hi) && Apart(v, rest) && MembersPlaced(s, rest, lo, hi)
  }

  // --------------------------------------------------------------------------- Wider borders

  lemma PlacedWider(s: Source, v: Value, lo: int, hi: int, lo': int, hi': int)
    requires Placed(s, v, lo, hi) && lo' <= lo && hi <= hi'
    ensures Placed(s, v, lo', hi')
  {
  }

  lemma {:induction false} ElementsPlacedWider(s: Source, m: Entries, lo: int, hi: int, hi': int)
    requires ElementsPlaced(s, m, lo, hi) && hi <= hi'
    ensures ElementsPlaced(s, m, lo, hi')
    decreases m
  {
    if m.Cons? {
      PlacedWider(s, m.value, lo, hi, lo, hi');
      ElementsPlacedWider(s, m.rest, m.value.limit + 1, hi, hi');
    }
  }

  lemma {:induction false} MembersPlacedWider(s: Source, m: Entries, lo: int, hi: int, hi': int)
    requires MembersPlaced(s, m, lo, hi) && hi <= hi'
    ensures MembersPlaced(s, m, lo, hi')
    decreases m
  {
    if m.Cons? {
      PlacedWider(s, m.value, lo, hi, lo, hi');
      MembersPlacedWider(s, m.rest, lo, hi, hi');
    }
  }

  // --------------------------------------------------------------------------- Adding a child

  /** A new element goes behind the others, which all lie before `p`. */
  lemma {:induction false} ElementAdded(s: Source, m: Entries, lo: int, p: int, hi: int, key: Key, v: Value)
    requires ElementsPlaced(s, m, lo, p - 1) && lo <= p <= hi && AllBelow(m, key) && Placed(s, v, p, hi)
    ensures ElementsPlaced(s, Set(m, key, v), lo, hi)
    decreases m
  {
    if m.Cons? {
      PlacedWider(s, m.value, lo, p - 1, lo, hi);
      ElementAdded(s, m.rest, m.value.limit + 1, p, hi, key, v);
    } else {
      PlacedWider(s, v, p, hi, lo, hi);
      assert ElementsPlaced(s, Nil, v.limit + 1, hi);
    }
  }

  lemma {:induction false} ApartFromEarlier(s: Source, m: Entries, lo: int, p: int, v: Value)
    requires MembersPlaced(s, m, lo, p) && p < v.start
    ensures Apart(v, m)
    decreases m
  {
    hide ReadsAlone;
    if m.Cons? {
      ApartFromEarlier(s, m.rest, lo, p, v);
    }
  }

  lemma {:induction false} ApartAfterSet(x: Value, m: Entries, key: Key, v: Value)
    requires Apart(x, m) && x.limit < v.start
    ensures Apart(x, Set(m, key, v))
    decreases m
  {
    if m.Cons? {
      ApartAfterSet(x, m.rest, key, v);
    }
  }

  /** A new member stands behind the others, which all lie before `p`; one with its name is replaced. */
  lemma {:induction false} MemberAdded(s: Source, m: Entries, lo: int, p: int, hi: int, key: Key, v: Value)
    requires MembersPlaced(s, m, lo, p) && lo <= p <= hi && Placed(s, v, p + 1, hi)
    ensures MembersPlaced(s, Set(m, key, v), lo, hi)
    decreases m
  {
    hide ReadsAlone;
    PlacedWider(s, v, p + 1, hi, lo, hi);
    if m.Cons? {
      ApartFromEarlier(s, m, lo, p, v);
      MembersPlacedWider(s, m, lo, p, hi);
      ApartAfterSet(m.value, m.rest, key, v);
      MemberAdded(s, m.rest, lo, p, hi, key, v);
    }
  }

  // --------------------------------------------------------------------------- Reading

  /** Reading from the start of the first token finds that token again. */
  lemma {:induction false} SkippingAgain(doc: bytes, p: nat)
    requires p <= |doc|
    ensures NextToken(doc, p).start < |doc| ==> NextToken(doc, NextToken(doc, p).start) == NextToken(doc, p)
    ensures var t := NextSkippingComments(doc, p); t.start < |doc| ==> NextSkippingComments(doc, t.start) == t
    decreases |doc| - p
  {
    hide TokenAt;
    var t := NextToken(doc, p);
    if t.kind == CommentToken {
      SkippingAgain(doc, t.end);
    }
  }

  /** What `readValue` makes of the slice from the first token of a value to its end. */
  lemma {:induction false} SliceReads(s: Source, p: nat, depth: int, cur: Value, was: Value)
    requires 0 <= depth && p <= |s.doc| && SucceedsBy(ParseValue(s, p, depth, cur), |s.doc|)
    ensures
      var r, a := ParseValue(s, p, depth, cur), FirstToken(s, p).start;
      a < r.pos && SameInWindow(r, ParseValue(Cut(s, a, r.pos), 0, 0, was), a)
  {
    hide ParseMembers, ParseArray, NumberData, DecodeText, NextToken, NextSkippingComments;
    var r, t := ParseValue(s, p, depth, cur), FirstToken(s, p);
    SkippingAgain(s.doc, p);
    assert FirstToken(s, t.start) == t;
    assert ParseValue(s, t.start, depth, cur) == r;
    ValueInWindow(s, t.start, t.start, r.pos, depth, cur, 0, was);
  }

  lemma {:induction false} NodeReadsAlone(s: Source, p: nat, depth: int, cur: Value)
    requires 0 <= depth && p <= |s.doc| && SucceedsBy(ParseValue(s, p, depth, cur), |s.doc|)
    requires ParseValue(s, p, depth, cur).value.start == FirstToken(s, p).start
    ensures ReadsAlone(s, ParseValue(s, p, depth, cur).value)
  {
    hide ParseValue, FirstToken;
    var v := ParseValue(s, p, depth, cur).value;
    SliceReads(s, p, depth, cur, v);
    forall was: Value
      ensures
        var r := ParseValue(Cut(s, v.start, v.limit), 0, 0, was);
        r.Returned? && r.ok && r.pos == v.limit - v.start && Strip(r.value) == Strip(v)
    {
      SliceReads(s, p, depth, cur, was);
    }
  }

  lemma {:induction false} ValuePlaced(s: Source, p: nat, depth: int, cur: Value)
    requires 0 <= depth && p <= |s.doc| && SucceedsBy(ParseValue(s, p, depth, cur), |s.doc|)
    ensures Placed(s, ParseValue(s, p, depth, cur).value, p, ParseValue(s, p, depth, cur).pos)
    decreases |s.doc| - p, 0
  {
    hide ParseMembers, ParseArray, ReadsAlone, DecodeText, NextToken, NextSkippingComments;
    var t := FirstToken(s, p);
    if t.kind == ObjectBegin {
      BeginIsOneCharacter(s, p);
      MembersArePlaced(s, t.end, depth + 1, Value(Object(Nil), t.start, cur.limit), [], t.start + 1);
    } else if t.kind == ArrayBegin {
      BeginIsOneCharacter(s, p);
      ArrayPlaced(s, t.end, depth + 1, Value(Array(Nil), t.start, cur.limit), t.start + 1);
    }
    NodeReadsAlone(s, p, depth, cur);
  }

  lemma {:induction false} BeginIsOneCharacter(s: Source, p: nat)
    requires p <= |s.doc| && FirstToken(s, p).kind in {ObjectBegin, ArrayBegin}
    ensures FirstToken(s, p).end == FirstToken(s, p).start + 1
  {
    SkippingIsNext(s.doc, p);
  }

  lemma {:induction false} SkippingIsNext(doc: bytes, p: nat)
    requires p <= |doc|
    ensures NextToken(doc, p).kind in {ObjectBegin, ArrayBegin} ==> NextToken(doc, p).end == NextToken(doc, p).start + 1
    ensures NextSkippingComments(doc, p).kind in {ObjectBegin, ArrayBegin} ==>
              NextSkippingComments(doc, p).end == NextSkippingComments(doc, p).start + 1
    decreases |doc| - p
  {
    hide StringEnd, CommentEnd, NumberEnd;
    var t := NextToken(doc, p);
    if t.kind == CommentToken {
      SkippingIsNext(doc, t.end);
    }
  }

  lemma {:induction false} FollowAdvances(s: Source, p: nat)
    requires p <= |s.doc|
    ensures ElementFollow(s, p).Last? || ElementFollow(s, p).More? ==> p < ElementFollow(s, p).pos
    ensures MemberFollow(s, p).Last? ==> p < MemberFollow(s, p).pos
  {
    hide NextToken, NextSkippingComments, RecoverTo;
  }

  lemma {:induction false} MembersArePlaced(s: Source, p: nat, depth: int, obj: Value, name: bytes, lo: int)
    requires 0 <= depth && lo <= p <= |s.doc| && SucceedsBy(ParseMembers(s, p, depth, obj, name), |s.doc|)
    requires obj.data.Object? && MembersPlaced(s, obj.data.entries, lo, p)
    ensures
      var r := ParseMembers(s, p, depth, obj, name);
      r.value.start == obj.start && r.value.data.Object? && MembersPlaced(s, r.value.data.entries, lo, r.pos - 1)
    decreases |s.doc| - p, 1
  {
    hide MemberName, ParseValue, MemberFollow, RecoverTo, Set, Placed;
    var step := MemberName(s, p, name);
    if step.NoMember? {
      MembersPlacedWider(s, obj.data.entries, lo, p, step.pos - 1);
    } else {
      var child := ParseValue(s, step.pos, depth, Get(EntriesOf(obj), Name(step.key)));
      ValuePlaced(s, step.pos, depth, Get(EntriesOf(obj), Name(step.key)));
      PlacedWider(s, child.value, step.pos, child.pos, p + 1, child.pos);
      MemberAdded(s, obj.data.entries, lo, p, child.pos, Name(step.key), child.value);
      var obj' := SetChild(obj, Name(step.key), child.value);
      var follow := MemberFollow(s, child.pos);
      FollowAdvances(s, child.pos);
      if follow.More? {
        MembersPlacedWider(s, obj'.data.entries, lo, child.pos, follow.pos);
        MembersArePlaced(s, follow.pos, depth, obj', step.key, lo);
      } else {
        MembersPlacedWider(s, obj'.data.entries, lo, child.pos, follow.pos - 1);
      }
    }
  }

  lemma {:induction false} ArrayPlaced(s: Source, p: nat, depth: int, arr: Value, lo: int)
    requires 0 <= depth && lo <= p <= |s.doc| && SucceedsBy(ParseArray(s, p, depth, arr), |s.doc|)
    requires arr.data == Array(Nil)
    ensures
      var r := ParseArray(s, p, depth, arr);
      r.value.start == arr.start && r.value.data.Array? && ElementsPlaced(s, r.value.data.entries, lo, r.pos - 1)
    decreases |s.doc| - p, 2
  {
    hide ParseElements, SkipSpaces;
    var q := SkipSpaces(s.doc, p);
    if CharAt(s.doc, q) != RIGHT_BRACKET {
      ElementsArePlaced(s, q, depth, arr, 0, lo);
    }
  }

  lemma {:induction false} ElementsArePlaced(s: Source, p: nat, depth: int, arr: Value, index: nat, lo: int)
    requires 0 <= depth && lo <= p <= |s.doc| && SucceedsBy(ParseElements(s, p, depth, arr, index), |s.doc|)
    requires arr.data.Array? && ElementsPlaced(s, arr.data.entries, lo, p - 1) &&
             AllBelow(arr.data.entries, Index(index))
    ensures
      var r := ParseElements(s, p, depth, arr, index);
      r.value.start == arr.start && r.value.data.Array? && ElementsPlaced(s, r.value.data.entries, lo, r.pos - 1)
    decreases |s.doc| - p, 1
  {
    hide ParseValue, ElementFollow, RecoverTo, Set, Placed, AllBelow;
    var child := ParseValue(s, p, depth, Get(EntriesOf(arr), Index(index)));
    ValuePlaced(s, p, depth, Get(EntriesOf(arr), Index(index)));
    ElementAdded(s, arr.data.entries, lo, p, child.pos, Index(index), child.value);
    var arr' := SetChild(arr, Index(index), child.value);
    var follow := ElementFollow(s, child.pos);
    FollowAdvances(s, child.pos);
    ElementsPlacedWider(s, arr'.data.entries, lo, child.pos, follow.pos - 1);
    if follow.More? {
      SetAtEnd(arr.data.entries, Index(index), child.value);
      AllBelowAfterAppend(arr.data.entries, Index(index), child.value, Index(index + 1));
      ElementsArePlaced(s, follow.pos, depth, arr', index + 1, lo);
    }
  }

  // --------------------------------------------------------------------------- Main result

  /**
   After a successful parse the offsets of every node lie inside those of its parent, array elements
   follow one another with a gap, no two members of an object overlap, and every node's slice reads back
   as the node.
   */
  lemma {:induction false} DocumentPlaced(s: Source, root: Value)
    requires var r := ParseDocument(s, root); r.Returned? && r.ok
    ensures Placed(s, ParseDocument(s, root).value, 0, |s.doc|)
  {
    hide ParseValue, Placed;
    ValuePlaced(s, 0, 0, root);
    PlacedWider(s, ParseValue(s, 0, 0, root).value, 0, ParseValue(s, 0, 0, root).pos, 0, |s.doc|);
  }

  /** A node's slice is also a whole document that parses to the node, where scalars are allowed at the root. */
  lemma {:induction false} SliceIsDocument(s: Source, v: Value, root: Value)
    requires ReadsAlone(s, v) && !s.features.strictRoot
    ensures
      var r := ParseDocument(Cut(s, v.start, v.limit), root);
      r.Returned? && r.ok && r.errors == [] && Strip(r.value) == Strip(v)
  {
    hide ParseValue;
    var _ := ParseValue(Cut(s, v.start, v.limit), 0, 0, root);
  }
}
