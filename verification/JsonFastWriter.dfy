/**
 FastWriter (json_writer.cpp): the compact text of a tree. Missing array slots print as null, so the
 text is defined on the tree with its arrays filled up.
 */
module JsonFastWriter {
  import opened Bytes
  import opened JsonNumber
  import opened JsonString
  import opened JsonValue
  import opened JsonOrder

  /** `formatReal` stands for the C library's formatting of a double. */
  datatype Options = Options(yamlCompatible: bool, dropNullPlaceholders: bool, omitEndingLineFeed: bool,
                             formatReal: Double -> bytes)

  // --------------------------------------------------------------------------- Filling arrays

  /** The tree with every missing array slot holding a null, and offsets zero. */
  function FilledValue(v: Value): Value
    requires Valid(v)
    decreases v, 0, 0
  {
    Plain(match v.data
          case Array(m) => Array(FilledEntries(m, 0))
          case Object(m) => Object(FilledMembers(m))
          case d => d)
  }

  /** The entries of an array from slot `i` on, with a null in every missing slot before the last. */
  function FilledEntries(m: Entries, i: nat): Entries
    requires KeysOfKind(m, true) && ValidEntries(m)
    decreases m, 0, if m.Cons? then m.key.n - i else 0
  {
    match m
    case Nil => Nil
    case Cons(k, v, rest) =>
      if i < k.n then Cons(Index(i), NULL_VALUE, FilledEntries(m, i + 1))
      else Cons(k, FilledValue(v), FilledEntries(rest, k.n + 1))
  }

  function FilledMembers(m: Entries): Entries
    requires ValidEntries(m)
    decreases m, 0, 0
  {
    match m
    case Nil => Nil
    case Cons(k, v, rest) => Cons(k, FilledValue(v), FilledMembers(rest))
  }

  // --------------------------------------------------------------------------- The text

  function NameOf(k: Key): bytes {
    match k
    case Name(s) => s
    case Index(_) => []
  }

  function ScalarText(d: Data, o: Options): bytes {
    match d
    case Null => if o.dropNullPlaceholders then [] else NULL_TEXT
    case Int(i) => IntText(i)
    case UInt(u) => DecText(u)
    case Real(x) => o.formatReal(x)
    case Str(None) => []
    case Str(Some(s)) => Quoted(s)
    case Bool(b) => if b then TRUE_TEXT else FALSE_TEXT
    case _ => []
  }

  function ColonText(o: Options): bytes {
    if o.yamlCompatible then [COLON, SPACE] else [COLON]
  }

  function FastText(v: Value, o: Options): bytes {
    match v.data
    case Array(m) => [LEFT_BRACKET] + ElementsText(m, o) + [RIGHT_BRACKET]
    case Object(m) => [LEFT_BRACE] + MembersText(m, o) + [RIGHT_BRACE]
    case d => ScalarText(d, o)
  }

  function CommaIf(more: bool): bytes {
    if more then [COMMA] else []
  }

  function ElementsText(m: Entries, o: Options): bytes {
    match m
    case Nil => []
    case Cons(_, v, rest) => FastText(v, o) + CommaIf(rest.Cons?) + ElementsText(rest, o)
  }

  function MembersText(m: Entries, o: Options): bytes {
    match m
    case Nil => []
    case Cons(k, v, rest) =>
      Quoted(NameOf(k)) + ColonText(o) + FastText(v, o) + CommaIf(rest.Cons?) + MembersText(rest, o)
  }

  /** The text the writer produces for any well-formed tree. */
  function WrittenText(v: Value, o: Options): bytes
    requires Valid(v)
  {
    FastText(FilledValue(v), o)
  }

  // --------------------------------------------------------------------------- Iterating

  /** `rest` is a tail of `m`. */
  predicate Tail(rest: Entries, m: Entries) {
    rest == m || (m.Cons? && Tail(rest, m.rest))
  }

  /** The member names in order. */
  function MemberNames(m: Entries): seq<bytes> {
    match m
    case Nil => []
    case Cons(k, _, rest) => [NameOf(k)] + MemberNames(rest)
  }

  lemma {:induction false} FindInTail(m: Entries, rest: Entries)
    requires Sorted(m) && Tail(rest, m) && rest.Cons? && KeysOfKind(m, rest.key.Index?)
    ensures Find(m, rest.key) == Some(rest.value)
    ensures m == rest || KeyLess(m.key, rest.key)
  {
    KeyTrichotomy(m.key, rest.key);
    if m != rest {
      FindInTail(m.rest, rest);
      if m.rest != rest {
        KeyTransitive(m.key, m.rest.key, rest.key);
      }
    }
  }

  lemma {:induction false} TailStep(m: Entries, rest: Entries)
    requires Tail(rest, m) && rest.Cons?
    ensures Tail(rest.rest, m)
  {
    if m != rest {
      TailStep(m.rest, rest);
    }
  }

  /** All keys are at least `i`. */
  predicate FromIndex(m: Entries, i: nat) {
    Sorted(m) && KeysOfKind(m, true) && (m.Cons? ==> i <= m.key.n)
  }

  /** What remains of an array once slot `i` has been passed. */
  function PastSlot(m: Entries, i: nat): Entries {
    if m.Cons? && m.key == Index(i) then m.rest else m
  }

  /** Filling exposes one slot at a time, holding what a subscript returns. */
  lemma FillStep(m: Entries, i: nat)
    requires FromIndex(m, i) && ValidEntries(m) && m.Cons?
    ensures Get(m, Index(i)) == if m.key == Index(i) then m.value else NULL_VALUE
    ensures Valid(Get(m, Index(i)))
    ensures FilledEntries(m, i) == Cons(Index(i), FilledValue(Get(m, Index(i))), FilledEntries(PastSlot(m, i), i + 1))
    ensures FromIndex(PastSlot(m, i), i + 1) && ValidEntries(PastSlot(m, i))
  {
  }

  lemma GetPastSlot(m: Entries, i: nat, j: nat)
    requires FromIndex(m, i) && i < j
    ensures Get(PastSlot(m, i), Index(j)) == Get(m, Index(j))
    ensures m.Cons? && PastSlot(m, i).Cons? ==> ArraySize(PastSlot(m, i)) == ArraySize(m)
  {
  }

  lemma {:induction false} SizeOfGet(m: Entries, key: Key)
    requires m.Cons?
    ensures Size(Get(m, key)) <= EntriesSize(m)
  {
    assert Size(NULL_VALUE) == 1;
    if KeyLess(m.key, key) {
      assert Get(m, key) == Get(m.rest, key);
      if m.rest.Cons? {
        SizeOfGet(m.rest, key);
      }
    }
  }

  lemma {:induction false} ArraySizeBound(m: Entries, i: nat)
    requires FromIndex(m, i) && m.Cons?
    ensures i < ArraySize(m)
    ensures PastSlot(m, i).Nil? <==> ArraySize(m) == i + 1
  {
    if m.rest.Cons? {
      ArraySizeBound(m.rest, m.key.n + 1);
    }
  }

  // --------------------------------------------------------------------------- The writer

  class FastWriter {
    const options: Options
    var document: bytes

    constructor (options: Options)
      ensures this.options == options && document == []
    {
      this.options := options;
      document := [];
    }

    method Write(root: Value) returns (text: bytes)
      requires Valid(root)
      modifies this
      ensures text == document
      ensures text == WrittenText(root, options) + if options.omitEndingLineFeed then [] else [LINE_FEED]
    {
      document := [];
      WriteValue(root);
      if !options.omitEndingLineFeed {
        document := document + [LINE_FEED];
      }
      text := document;
    }

    method WriteValue(value: Value)
      requires Valid(value)
      modifies this
      ensures document == old(document) + WrittenText(value, options)
      decreases Size(value), 1
    {
      match value.data {
        case Null =>
          if !options.dropNullPlaceholders {
            document := document + NULL_TEXT;
          }
        case Int(i) =>
          var text := ValueToStringSigned(i);
          document := document + text;
        case UInt(u) =>
          var text := ValueToStringUnsigned(u);
          document := document + text;
        case Real(x) =>
          document := document + options.formatReal(x);
        case Str(s) =>
          if s.Some? {
            var text := ValueToQuotedStringN(s.value);
            document := document + text;
          }
        case Bool(b) =>
          document := document + if b then TRUE_TEXT else FALSE_TEXT;
        case Array(m) =>
          WriteElements(m);
        case Object(m) =>
          WriteMembers(m);
      }
    }

    method WriteElements(m: Entries)
      requires Sorted(m) && KeysOfKind(m, true) && ValidEntries(m)
      modifies this
      ensures document == old(document) + ([LEFT_BRACKET] + ElementsText(FilledEntries(m, 0), options) +
                                           [RIGHT_BRACKET])
      decreases EntriesSize(m) + 1, 0
    {
      hide FilledValue, FilledEntries, ElementsText, FastText, Find, ArraySize, Size;
      ghost var whole := ElementsText(FilledEntries(m, 0), options);
      document := document + [LEFT_BRACKET];
      var size := ArraySize(m);
      ArrayStart(m);
      ghost var rest := m;
      var index := 0;
      while index < size
        invariant 0 <= index <= size
        invariant FromIndex(rest, index) && ValidEntries(rest) && (rest.Cons? <==> index < size)
        invariant rest.Cons? ==> ArraySize(rest) == size
        invariant forall j :: index <= j ==> Get(rest, Index(j)) == Get(m, Index(j))
        invariant document + (CommaIf(0 < index < size) + ElementsText(FilledEntries(rest, index), options)) ==
                  old(document) + [LEFT_BRACKET] + whole
      {
        ghost var before := document;
        if index > 0 {
          document := document + [COMMA];
        }
        SlotStep(m, rest, index);
        ElementStep(m, rest, index, options);
        SizeOfGet(m, Index(index));
        WriteValue(Get(m, Index(index)));
        ghost var piece := WrittenText(Get(m, Index(index)), options);
        assert document == before + CommaIf(0 < index) + piece;
        rest := PastSlot(rest, index);
        Regroup(before, CommaIf(0 < index), piece, CommaIf(rest.Cons?) +
                ElementsText(FilledEntries(rest, index + 1), options));
        index := index + 1;
      }
      EmptyText(options);
      assert document + ([] + []) == document;
      document := document + [RIGHT_BRACKET];
      assert document == old(document) + ([LEFT_BRACKET] + whole + [RIGHT_BRACKET]);
    }

    method WriteMember(name: bytes, value: Value)
      requires Valid(value)
      modifies this
      ensures document == old(document) + (Quoted(name) + ColonText(options) + WrittenText(value, options))
      decreases Size(value), 2
    {
      var text := ValueToQuotedStringN(name);
      document := document + text;
      document := document + if options.yamlCompatible then [COLON, SPACE] else [COLON];
      WriteValue(value);
    }

    method WriteMembers(m: Entries)
      requires Sorted(m) && KeysOfKind(m, false) && ValidEntries(m)
      modifies this
      ensures document == old(document) + ([LEFT_BRACE] + MembersText(FilledMembers(m), options) + [RIGHT_BRACE])
      decreases EntriesSize(m) + 1, 0
    {
      hide FilledValue, FilledMembers, MembersText, WrittenText, Find, Size, MemberNames, Tail, Quoted, ColonText,
           Sorted, KeysOfKind, ValidEntries, Get;
      var members := MemberNames(m);
      ghost var whole := MembersText(FilledMembers(m), options);
      document := document + [LEFT_BRACE];
      ghost var rest := m;
      TailStart(m);
      var it := 0;
      while it < |members|
        invariant 0 <= it <= |members|
        invariant Tail(rest, m) && KeysOfKind(rest, false) && ValidEntries(rest)
        invariant members[it..] == MemberNames(rest) && (rest.Cons? <==> it < |members|)
        invariant document + (CommaIf(0 < it < |members|) + MembersText(FilledMembers(rest), options)) ==
                  old(document) + [LEFT_BRACE] + whole
      {
        ghost var before := document;
        var name := members[it];
        if it != 0 {
          document := document + [COMMA];
        }
        MemberStep(m, rest);
        MembersTextStep(rest, options);
        assert name == members[it..][0] && members[it + 1..] == members[it..][1..];
        SizeOfGet(m, Name(name));
        WriteMember(name, Get(m, Name(name)));
        ghost var piece := Quoted(name) + ColonText(options) + WrittenText(rest.value, options);
        assert document == before + CommaIf(0 < it) + piece;
        Regroup(before, CommaIf(0 < it), piece, CommaIf(rest.rest.Cons?) +
                MembersText(FilledMembers(rest.rest), options));
        rest := rest.rest;
        it := it + 1;
      }
      EmptyText(options);
      assert document + ([] + []) == document;
      document := document + [RIGHT_BRACE];
      assert document == old(document) + ([LEFT_BRACE] + whole + [RIGHT_BRACE]);
    }
  }

  // Steps of the two loops.

  lemma Regroup(a: bytes, b: bytes, c: bytes, d: bytes)
    ensures a + b + c + d == a + (b + (c + d))
  {
  }

  lemma EmptyText(o: Options)
    ensures FilledEntries(Nil, 0) == Nil && ElementsText(Nil, o) == []
    ensures forall i: nat :: FilledEntries(Nil, i) == Nil
    ensures FilledMembers(Nil) == Nil && MembersText(Nil, o) == []
  {
  }

  lemma {:induction false} ArrayStart(m: Entries)
    requires Sorted(m) && KeysOfKind(m, true)
    ensures FromIndex(m, 0) && (m.Cons? <==> 0 < ArraySize(m))
  {
    if m.Cons? {
      ArraySizeBound(m, 0);
    }
  }

  /** One slot of an array: `rest` holds the entries from slot `index` on. */
  lemma {:induction false} SlotStep(m: Entries, rest: Entries, index: nat)
    requires FromIndex(rest, index) && ValidEntries(rest) && rest.Cons?
    requires forall j :: index <= j ==> Get(rest, Index(j)) == Get(m, Index(j))
    ensures
      var next := PastSlot(rest, index);
      && Valid(Get(m, Index(index)))
      && FromIndex(next, index + 1) && ValidEntries(next)
      && FilledEntries(rest, index) == Cons(Index(index), FilledValue(Get(m, Index(index))),
                                            FilledEntries(next, index + 1))
      && (next.Cons? <==> index + 1 < ArraySize(rest)) && (next.Cons? ==> ArraySize(next) == ArraySize(rest))
      && (next.Cons? <==> FilledEntries(next, index + 1).Cons?)
      && forall j :: index + 1 <= j ==> Get(next, Index(j)) == Get(m, Index(j))
  {
    FillStep(rest, index);
    ArraySizeBound(rest, index);
    GetPastSlot(rest, index, index + 1);
    var next := PastSlot(rest, index);
    forall j | index + 1 <= j ensures Get(next, Index(j)) == Get(m, Index(j)) {
      GetPastSlot(rest, index, j);
    }
  }

  lemma {:induction false} ElementStep(m: Entries, rest: Entries, index: nat, o: Options)
    requires FromIndex(rest, index) && ValidEntries(rest) && rest.Cons?
    requires forall j :: index <= j ==> Get(rest, Index(j)) == Get(m, Index(j))
    ensures
      var next := PastSlot(rest, index);
      && Valid(Get(m, Index(index)))
      && FromIndex(next, index + 1) && ValidEntries(next)
      && ElementsText(FilledEntries(rest, index), o) ==
         WrittenText(Get(m, Index(index)), o) + (CommaIf(next.Cons?) + ElementsText(FilledEntries(next, index + 1), o))
  {
    hide Find, FastText, Sorted, KeysOfKind;
    SlotStep(m, rest, index);
  }

  lemma TailStart(m: Entries)
    ensures Tail(m, m) && (m.Cons? <==> |MemberNames(m)| > 0)
  {
  }

  lemma {:induction false} MemberStep(m: Entries, rest: Entries)
    requires Sorted(m) && KeysOfKind(m, false) && Tail(rest, m) && rest.Cons? && KeysOfKind(rest, false) &&
             ValidEntries(rest)
    ensures MemberNames(rest) == [NameOf(rest.key)] + MemberNames(rest.rest)
    ensures rest.key == Name(NameOf(rest.key))
    ensures m.Cons? && Get(m, rest.key) == rest.value && Valid(rest.value)
    ensures Tail(rest.rest, m) && KeysOfKind(rest.rest, false) && ValidEntries(rest.rest)
    ensures rest.rest.Cons? <==> |MemberNames(rest.rest)| > 0
  {
    FindInTail(m, rest);
    TailStep(m, rest);
  }

  lemma {:induction false} MembersTextStep(rest: Entries, o: Options)
    requires rest.Cons? && ValidEntries(rest)
    ensures Valid(rest.value) && ValidEntries(rest.rest)
    ensures MembersText(FilledMembers(rest), o) ==
            Quoted(NameOf(rest.key)) + ColonText(o) + WrittenText(rest.value, o) +
            (CommaIf(rest.rest.Cons?) + MembersText(FilledMembers(rest.rest), o))
  {
    hide FastText, Quoted;
    var filled := FilledMembers(rest);
    assert filled == Cons(rest.key, FilledValue(rest.value), FilledMembers(rest.rest));
    assert filled.rest.Cons? == rest.rest.Cons?;
  }
}
