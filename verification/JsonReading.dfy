/** The reader turns every text of the grammar into the tree it writes down, or throws when it nests too deeply. */
module JsonReading {
  import opened Bytes
  import opened JsonString
  import opened JsonValue
  import opened JsonLexer
  import opened JsonParser
  import opened JsonGrammar
  import opened JsonLexemes

  // --------------------------------------------------------------------------- Appending entries

  function Append(m: Entries, n: Entries): Entries {
    match m
    case Nil => n
    case Cons(k, v, rest) => Cons(k, v, Append(rest, n))
  }

  predicate AllBelow(m: Entries, key: Key) {
    match m
    case Nil => true
    case Cons(k, _, rest) => KeyLess(k, key) && AllBelow(rest, key)
  }

  lemma {:induction false} SetAtEnd(m: Entries, key: Key, v: Value)
    requires AllBelow(m, key)
    ensures Set(m, key, v) == Append(m, Cons(key, v, Nil))
  {
    if m.Cons? {
      SetAtEnd(m.rest, key, v);
    }
  }

  lemma {:induction false} AllBelowAfterAppend(m: Entries, key: Key, v: Value, next: Key)
    requires AllBelow(m, key) && KeyLess(key, next)
    ensures AllBelow(Append(m, Cons(key, v, Nil)), next)
  {
    if m.Cons? {
      KeyTransitive(m.key, key, next);
      AllBelowAfterAppend(m.rest, key, v, next);
    }
  }

  lemma {:induction false} StripAppend(m: Entries, key: Key, v: Value, n: Entries)
    ensures Append(StripEntries(Append(m, Cons(key, v, Nil))), n) == Append(StripEntries(m), Cons(key, Strip(v), n))
  {
    if m.Cons? {
      StripAppend(m.rest, key, v, n);
    }
  }

  /** Setting a key above all present ones appends the entry, and offsets do not matter. */
  lemma {:induction false} SetAppends(m: Entries, key: Key, v: Value, n: Entries)
    requires AllBelow(m, key)
    ensures Append(StripEntries(Set(m, key, v)), n) == Append(StripEntries(m), Cons(key, Strip(v), n))
  {
    SetAtEnd(m, key, v);
    StripAppend(m, key, v, n);
  }

  lemma {:induction false} AppendTwice(m: Entries, key: Key, v: Value, n: Entries)
    ensures Append(Append(m, Cons(key, v, Nil)), n) == Append(m, Cons(key, v, n))
  {
    if m.Cons? {
      AppendTwice(m.rest, key, v, n);
    }
  }

  lemma {:induction false} AppendNil(m: Entries)
    ensures Append(m, Nil) == m
  {
    if m.Cons? {
      AppendNil(m.rest);
    }
  }

  // --------------------------------------------------------------------------- Names in order

  /** In every object the names strictly increase. */
  predicate Ordered(w: Value) {
    match w.data
    case Array(m) => OrderedEntries(m)
    case Object(m) => Sorted(m) && OrderedEntries(m)
    case _ => true
  }

  predicate OrderedEntries(m: Entries) {
    match m
    case Nil => true
    case Cons(_, v, rest) => Ordered(v) && OrderedEntries(rest)
  }

  /** A tree whose names are in order is read back as it is. */
  lemma {:induction false} OrderedReadsBack(w: Value)
    requires Ordered(w)
    ensures ReadBack(w) == Strip(w)
    decreases w, 0
  {
    match w.data
    case Array(m) => OrderedElementsReadBack(m);
    case Object(m) => OrderedMembersCollect(Nil, m);
    case _ =>
  }

  lemma {:induction false} OrderedElementsReadBack(m: Entries)
    requires OrderedEntries(m)
    ensures ReadBackElements(m) == StripEntries(m)
    decreases m, 0
  {
    if m.Cons? {
      OrderedReadsBack(m.value);
      OrderedElementsReadBack(m.rest);
    }
  }

  lemma {:induction false} OrderedMembersCollect(acc: Entries, m: Entries)
    requires OrderedEntries(m) && Sorted(m) && (m.Cons? ==> AllBelow(acc, m.key))
    ensures Entered(acc, m) == Append(acc, StripEntries(m))
    decreases m, 0
  {
    hide Strip, ReadBack, Set;
    if m.Nil? {
      AppendNil(acc);
    } else {
      var v := ReadBack(m.value);
      OrderedReadsBack(m.value);
      SetAtEnd(acc, m.key, v);
      if m.rest.Cons? {
        AllBelowAfterAppend(acc, m.key, v, m.rest.key);
      }
      OrderedMembersCollect(Set(acc, m.key, v), m.rest);
      AppendTwice(acc, m.key, v, StripEntries(m.rest));
    }
  }

  // --------------------------------------------------------------------------- Scalars

  /** A text begins with something that is neither white space nor a comment nor a closing bracket. */
  lemma {:induction false} TextBegins(s: Source, w: Value, p: nat, q: nat)
    requires ValueText(s, w, p, q)
    ensures p < q <= |s.doc| && !IsBlank(s.doc[p]) && s.doc[p] != 47 && s.doc[p] != 93
  {
    hide ElementList, MemberList, PiecesAt;
    if w.data.Null? || w.data.Bool? {
      var word: bytes := if w.data.Null? then [110, 117, 108, 108]
      else if w.data.b then [116, 114, 117, 101] else [102, 97, 108, 115, 101];
      AtIndex(s.doc, p, word, 0);
    }
  }

  /** What the reader finds at the end of a lead. */
  lemma {:induction false} FirstOfText(s: Source, w: Value, p: nat, a: nat, q: nat)
    requires Lead(s, p, a) && ValueText(s, w, a, q)
    ensures p <= |s.doc| && a < q <= |s.doc| && FirstToken(s, p) == TokenAt(s.doc, a)
  {
    hide ValueText, Lead, TokenAt, FirstToken;
    TextBegins(s, w, a, q);
    TokenAfterLead(s, p, a);
  }

  lemma {:induction false} NumberMeaningAgrees(s: Source, t: Token)
    requires t.start <= t.end <= |s.doc|
    ensures NumberData(s, t) == NumberMeaning(s.scan, s.doc[t.start..t.end])
  {
  }

  lemma MeaningIsNumber(scan: bytes -> Option<Double>, text: bytes)
    ensures NumberMeaning(scan, text).Some? ==> IsNumber(NumberMeaning(scan, text).value)
  {
  }

  lemma {:induction false} ScalarReads(s: Source, w: Value, p: nat, q: nat, depth: int, cur: Value)
    requires ValueText(s, w, p, q) && !IsContainer(w.data)
    ensures p < q <= |s.doc|
    ensures
      var t := TokenAt(s.doc, p);
      && t.kind !in {ObjectBegin, ArrayBegin}
      && ParseScalar(s, t, depth, cur) == Returned(true, q, [], Value(w.data, p, q), depth)
  {
    hide TokenAt, LongestNumber, Literal, PiecesAt, DecodeText, NumberMeaning, NumberData, At;
    TextBegins(s, w, p, q);
    if w.data.Str? {
      LiteralToken(s.doc, p, q, w.data.s.value);
    } else if w.data.Null? || w.data.Bool? {
      WordTokens(s.doc, p, q);
    } else {
      NumberTokenAt(s.doc, p, q);
      NumberMeaningAgrees(s, TokenAt(s.doc, p));
    }
  }

  // --------------------------------------------------------------------------- Containers

  /** A step that succeeded at `e` with a container value whose entries are `m` up to offsets. */
  ghost predicate ReadEntries(r: Outcome, e: nat, depth: int, isArray: bool, m: Entries) {
    && r.Returned? && r.ok && r.pos == e && r.depth == depth
    && (if isArray then r.value.data.Array? else r.value.data.Object?)
    && StripEntries(EntriesOf(r.value)) == m
  }

  ghost predicate ReadValueOf(r: Outcome, e: nat, w: Value) {
    r.Returned? && r.ok && r.pos == e && Strip(r.value) == ReadBack(w)
  }

  lemma {:induction false} ClosingToken(doc: bytes, c: byte, p: nat, q: nat)
    requires Closes(doc, c, p, q) && c in {44, 93, 125}
    ensures p < q <= |doc|
    ensures
      var t := NextSkippingComments(doc, p);
      && t == TokenAt(doc, q - 1) && t.end == q
      && t.kind == if c == 44 then ArraySeparator else if c == 93 then ArrayEnd else ObjectEnd
  {
    hide TokenAt, Gap;
    TokenAfterGap(doc, p, q - 1);
    PunctuationTokens(doc, q - 1);
  }

  /** What follows the last or another element. */
  lemma {:induction false} ElementFollows(s: Source, c: byte, p: nat, q: nat)
    requires Closes(s.doc, c, p, q) && c in {44, 93}
    ensures p <= |s.doc| && ElementFollow(s, p) == if c == 44 then More(q) else Last(q)
  {
    hide Closes, TokenAt, RecoverTo;
    ClosingToken(s.doc, c, p, q);
  }

  lemma {:induction false} MemberFollows(s: Source, c: byte, p: nat, q: nat)
    requires Closes(s.doc, c, p, q) && c in {44, 125}
    ensures p <= |s.doc| && MemberFollow(s, p) == if c == 44 then More(q) else Last(q)
  {
    hide Closes, TokenAt, RecoverTo;
    ClosingToken(s.doc, c, p, q);
  }

  lemma {:induction false} StrayFollows(s: Source, p: nat, q: nat)
    requires Stray(s.doc, p, q)
    ensures p <= |s.doc| && MemberFollow(s, p) == More(q)
  {
    hide TokenAt, RecoverTo, Blanks;
    SkippedBlanks(s.doc, p);
  }

  lemma {:induction false} SeparatorFollows(s: Source, p: nat, q: nat)
    requires Separates(s.doc, p, q)
    ensures p <= |s.doc| && MemberFollow(s, p) == More(q)
  {
    hide Closes, Stray, MemberFollow;
    if Closes(s.doc, 44, p, q) {
      MemberFollows(s, 44, p, q);
    } else {
      StrayFollows(s, p, q);
    }
  }

  lemma {:induction false} NameReads(s: Source, name: bytes, p: nat, q: nat, last: bytes)
    requires Label(s.doc, name, p, q)
    ensures p < q <= |s.doc| && MemberName(s, p, last) == Named(name, q)
  {
    hide TokenAt, RecoverTo, DecodeText, Gap, Blanks, PiecesAt, MemberName, SkipSpaces;
    var a: nat, b: nat :| Gap(s.doc, p, a) && Literal(s.doc, a, b, name) && ColonAt(s.doc, b, q);
    GapInside(s.doc, p, a);
    BlanksInside(s.doc, b, q - 1);
    LiteralBegins(s.doc, a, b, name);
    hide Literal, NextToken, NextSkippingComments;
    TokenAfterGap(s.doc, p, a);
    LiteralToken(s.doc, a, b, name);
    TokenAfterBlanks(s.doc, b, q - 1);
    PunctuationTokens(s.doc, q - 1);
    NamedBy(s, p, last, name);
  }

  lemma LiteralBegins(doc: bytes, a: nat, b: nat, t: bytes)
    requires Literal(doc, a, b, t)
    ensures a + 2 <= b <= |doc| && !IsBlank(doc[a]) && doc[a] != 47
  {
  }

  lemma {:induction false} NamedBy(s: Source, p: nat, last: bytes, name: bytes)
    requires p <= |s.doc|
    requires
      var t := NextSkippingComments(s.doc, p);
      t.kind == StringToken && DecodeText(s.doc, t.start + 1, t.end - 1) == Text(name) &&
      NextToken(s.doc, t.end).kind == MemberSeparator
    ensures
      var t := NextSkippingComments(s.doc, p);
      MemberName(s, p, last) == Named(name, NextToken(s.doc, t.end).end)
  {
    hide NextToken, NextSkippingComments, DecodeText, RecoverTo;
  }

  lemma {:induction false} NoMoreMembers(s: Source, p: nat, q: nat, depth: int, obj: Value)
    requires Closes(s.doc, 125, p, q)
    ensures p <= |s.doc| && ParseMembers(s, p, depth, obj, []) == Returned(true, q, [], obj, depth)
  {
    hide Closes, TokenAt, RecoverTo, AfterMember;
    ClosingToken(s.doc, 125, p, q);
  }

  lemma {:induction false} NoElements(s: Source, p: nat, q: nat, depth: int, arr: Value)
    requires p < q && Blanks(s.doc, p, q - 1) && q <= |s.doc| && s.doc[q - 1] == 93
    ensures ParseArray(s, p, depth, arr) == Returned(true, q, [], arr, depth)
  {
    hide TokenAt;
    TokenAfterBlanks(s.doc, p, q - 1);
  }

  /** Where elements begin, white space may be skipped first, and no bracket is found. */
  lemma {:induction false} ElementsBegin(s: Source, v: Value, p: nat, e: nat, depth: int, arr: Value)
    requires SpacedText(s, v, p, e)
    ensures p <= |s.doc| && ParseArray(s, p, depth, arr) == ParseElements(s, p, depth, arr, 0)
  {
    hide ValueText, Lead, TokenAt, ParseMembers, ParseScalar, NextSkippingComments;
    var a: nat :| Lead(s, p, a) && ValueText(s, v, a, e);
    FirstOfText(s, v, p, a, e);
    TextBegins(s, v, a, e);
    PunctuationTokens(s.doc, a);
    var z := SkipSpaces(s.doc, p);
    SkippedBlanks(s.doc, p);
    BlanksSkipped(s.doc, p, z);
    SameToken(s, p, z);
    if CharAt(s.doc, z) == 93 {
      PunctuationTokens(s.doc, z);
      FirstIsNext(s, p);
    }
    SameElements(s, p, z, depth, arr);
  }

  lemma SameToken(s: Source, p: nat, z: nat)
    requires p <= |s.doc| && z <= |s.doc| && SkipSpaces(s.doc, p) == SkipSpaces(s.doc, z)
    ensures FirstToken(s, p) == FirstToken(s, z)
  {
  }

  lemma FirstIsNext(s: Source, p: nat)
    requires p <= |s.doc| && NextToken(s.doc, p).kind != CommentToken
    ensures FirstToken(s, p) == NextToken(s.doc, p)
  {
  }

  lemma SameElements(s: Source, p: nat, z: nat, depth: int, arr: Value)
    requires p <= |s.doc| && z <= |s.doc| && FirstToken(s, p) == FirstToken(s, z)
    ensures ParseElements(s, p, depth, arr, 0) == ParseElements(s, z, depth, arr, 0)
  {
  }

  // --------------------------------------------------------------------------- Reading

  /** What `readValue` does with its first token. */
  lemma FirstDecides(s: Source, p: nat, depth: int, cur: Value)
    requires p <= |s.doc| && depth < STACK_LIMIT
    ensures
      var t := FirstToken(s, p);
      ParseValue(s, p, depth, cur) ==
      if t.kind == ObjectBegin then
        Close(ParseMembers(s, t.end, depth + 1, Value(Object(Nil), t.start, cur.limit), []))
      else if t.kind == ArrayBegin then
        Close(ParseArray(s, t.end, depth + 1, Value(Array(Nil), t.start, cur.limit)))
      else ParseScalar(s, t, depth, cur)
  {
  }

  /** A container read is closed with its value. */
  lemma ClosedReads(r: Outcome, q: nat, depth: int, w: Value)
    requires w.data.Array? ==> ReadEntries(r, q, depth, true, ReadBackElements(w.data.entries))
    requires w.data.Object? ==> ReadEntries(r, q, depth, false, Entered(Nil, w.data.entries))
    requires IsContainer(w.data)
    ensures ReadValueOf(Close(r), q, w)
  {
  }

  /** How the text of a container begins. */
  lemma ContainerText(s: Source, w: Value, a: nat, q: nat)
    requires ValueText(s, w, a, q) && a < |s.doc|
    ensures w.data.Array? ==>
              && s.doc[a] == 91
              && if w.data.entries.Nil? then a + 1 < q <= |s.doc| && Blanks(s.doc, a + 1, q - 1) && s.doc[q - 1] == 93
                 else ElementList(s, w.data.entries, 0, a + 1, q)
    ensures w.data.Object? ==> s.doc[a] == 123 && MemberList(s, w.data.entries, [], a + 1, q)
  {
  }

  /** Every text within the depth limit is read as its tree. */
  lemma {:induction false} TextReads(s: Source, w: Value, p: nat, q: nat, depth: int, cur: Value)
    requires SpacedText(s, w, p, q) && depth + Nest(w) <= STACK_LIMIT
    ensures p <= |s.doc| && ReadValueOf(ParseValue(s, p, depth, cur), q, w)
    decreases w, 2
  {
    hide Lead, ElementList, MemberList, FirstToken, TokenAt, ParseScalar, ParseArray, ParseMembers, ParseValue,
         ReadEntries, Close, ValueText, Blanks;
    var a: nat :| Lead(s, p, a) && ValueText(s, w, a, q);
    FirstOfText(s, w, p, a, q);
    ContainerText(s, w, a, q);
    PunctuationTokens(s.doc, a);
    FirstDecides(s, p, depth, cur);
    match w.data
    case Array(m) =>
      ArrayReads(s, m, a + 1, q, depth + 1, Value(Array(Nil), a, cur.limit));
      ClosedReads(ParseArray(s, a + 1, depth + 1, Value(Array(Nil), a, cur.limit)), q, depth + 1, w);
    case Object(m) =>
      MembersRead(s, m, a + 1, q, depth + 1, Value(Object(Nil), a, cur.limit), []);
      NothingEntered();
      ClosedReads(ParseMembers(s, a + 1, depth + 1, Value(Object(Nil), a, cur.limit), []), q, depth + 1, w);
    case _ => ScalarReads(s, w, a, q, depth, cur);
  }

  lemma NothingEntered()
    ensures StripEntries(Nil) == Nil
  {
  }

  lemma {:induction false} ArrayReads(s: Source, m: Entries, p: nat, q: nat, depth: int, arr: Value)
    requires if m.Nil? then p < q <= |s.doc| && Blanks(s.doc, p, q - 1) && s.doc[q - 1] == 93
             else ElementList(s, m, 0, p, q)
    requires depth + NestOfEntries(m) <= STACK_LIMIT && arr.data == Array(Nil)
    ensures p <= |s.doc| && ReadEntries(ParseArray(s, p, depth, arr), q, depth, true, ReadBackElements(m))
    decreases m, 2
  {
    hide ParseArray, ParseElements, SpacedText;
    if m.Nil? {
      NoElements(s, p, q, depth, arr);
      assert m == Nil && StripEntries(Nil) == Nil && ReadBackElements(Nil) == Nil;
    } else {
      ElementsRead(s, m, p, q, depth, arr, 0);
      var e: nat :| SpacedText(s, m.value, p, e);
      ElementsBegin(s, m.value, p, e, depth, arr);
      assert Append(StripEntries(Nil), ReadBackElements(m)) == ReadBackElements(m);
    }
  }

  lemma {:induction false} ElementsRead(s: Source, m: Entries, p: nat, q: nat, depth: int, arr: Value, index: nat)
    requires ElementList(s, m, index, p, q) && depth + NestOfEntries(m) <= STACK_LIMIT
    requires arr.data.Array? && AllBelow(arr.data.entries, Index(index))
    ensures p <= |s.doc|
    ensures ReadEntries(ParseElements(s, p, depth, arr, index), q, depth, true,
                        Append(StripEntries(arr.data.entries), ReadBackElements(m)))
    decreases m, 1
  {
    hide ParseValue, ElementFollow, SpacedText, Closes, Set, Find;
    var e: nat :| SpacedText(s, m.value, p, e) &&
                  if m.rest.Nil? then Closes(s.doc, 93, e, q)
                  else exists next :: Closes(s.doc, 44, e, next) && ElementList(s, m.rest, index + 1, next, q);
    var acc, cur := arr.data.entries, Get(arr.data.entries, Index(index));
    TextReads(s, m.value, p, e, depth, cur);
    var child := ParseValue(s, p, depth, cur);
    var arr' := SetChild(arr, Index(index), child.value);
    SetAppends(acc, Index(index), child.value, ReadBackElements(m.rest));
    if m.rest.Nil? {
      ElementFollows(s, 93, e, q);
      AppendNil(StripEntries(arr'.data.entries));
    } else {
      var next: nat :| Closes(s.doc, 44, e, next) && ElementList(s, m.rest, index + 1, next, q);
      ElementFollows(s, 44, e, next);
      SetAtEnd(acc, Index(index), child.value);
      AllBelowAfterAppend(acc, Index(index), child.value, Index(index + 1));
      ElementsRead(s, m.rest, next, q, depth, arr', index + 1);
    }
  }

  lemma {:induction false} MembersRead(s: Source, m: Entries, p: nat, q: nat, depth: int, obj: Value, last: bytes)
    requires MemberList(s, m, last, p, q) && depth + NestOfEntries(m) <= STACK_LIMIT && obj.data.Object?
    ensures p <= |s.doc|
    ensures ReadEntries(ParseMembers(s, p, depth, obj, last), q, depth, false,
                        Entered(StripEntries(obj.data.entries), m))
    decreases m, 1
  {
    hide ParseValue, MemberName, MemberFollow, SpacedText, Closes, Label, Separates, Set, Find, ReadBack;
    if m.Nil? {
      NoMoreMembers(s, p, q, depth, obj);
      assert m == Nil;
    } else {
      var name := m.key.s;
      var c: nat, e: nat :| Label(s.doc, name, p, c) && SpacedText(s, m.value, c, e) &&
                            ((m.rest.Nil? && Closes(s.doc, 125, e, q)) || MoreMembers(s, m.rest, name, e, q));
      NameReads(s, name, p, c, last);
      var acc := obj.data.entries;
      TextReads(s, m.value, c, e, depth, Get(acc, m.key));
      var child := ParseValue(s, c, depth, Get(acc, m.key));
      var obj' := SetChild(obj, m.key, child.value);
      StripSet(acc, m.key, child.value);
      if m.rest.Nil? && Closes(s.doc, 125, e, q) {
        MemberFollows(s, 125, e, q);
      } else {
        var next: nat :| Separates(s.doc, e, next) && MemberList(s, m.rest, name, next, q);
        SeparatorFollows(s, e, next);
        MembersRead(s, m.rest, next, q, depth, obj', name);
      }
    }
  }

  // --------------------------------------------------------------------------- Too deep

  /** Beyond the depth limit the reader throws. */
  lemma {:induction false} DeepTextThrows(s: Source, w: Value, p: nat, q: nat, depth: int, cur: Value)
    requires SpacedText(s, w, p, q) && depth <= STACK_LIMIT < depth + Nest(w)
    ensures p <= |s.doc| && ParseValue(s, p, depth, cur).Thrown?
    decreases w, 2
  {
    hide Lead, ElementList, MemberList, FirstToken, TokenAt, ParseArray, ParseMembers, ParseScalar, ValueText,
         Blanks;
    var a: nat :| Lead(s, p, a) && ValueText(s, w, a, q);
    FirstOfText(s, w, p, a, q);
    ContainerText(s, w, a, q);
    PunctuationTokens(s.doc, a);
    if depth < STACK_LIMIT {
      hide ParseValue;
      FirstDecides(s, p, depth, cur);
      match w.data
      case Array(m) => DeepArrayThrows(s, m, a + 1, q, depth + 1, Value(Array(Nil), a, cur.limit));
      case Object(m) => DeepMembersThrow(s, m, a + 1, q, depth + 1, Value(Object(Nil), a, cur.limit), []);
      case _ =>
    }
  }

  lemma {:induction false} DeepArrayThrows(s: Source, m: Entries, p: nat, q: nat, depth: int, arr: Value)
    requires ElementList(s, m, 0, p, q) && depth <= STACK_LIMIT < depth + NestOfEntries(m)
    ensures p <= |s.doc| && ParseArray(s, p, depth, arr).Thrown?
    decreases m, 2
  {
    hide ParseArray, ParseElements, SpacedText;
    DeepElementsThrow(s, m, p, q, depth, arr, 0);
    var e: nat :| SpacedText(s, m.value, p, e);
    ElementsBegin(s, m.value, p, e, depth, arr);
  }

  lemma {:induction false} DeepElementsThrow(s: Source, m: Entries, p: nat, q: nat, depth: int, arr: Value, index: nat)
    requires ElementList(s, m, index, p, q) && depth <= STACK_LIMIT < depth + NestOfEntries(m)
    ensures p <= |s.doc| && ParseElements(s, p, depth, arr, index).Thrown?
    decreases m, 1
  {
    hide ParseValue, ElementFollow, SpacedText, Closes, Set, Find;
    var e: nat :| SpacedText(s, m.value, p, e) &&
                  if m.rest.Nil? then Closes(s.doc, 93, e, q)
                  else exists next :: Closes(s.doc, 44, e, next) && ElementList(s, m.rest, index + 1, next, q);
    var cur := Get(EntriesOf(arr), Index(index));
    if depth + Nest(m.value) > STACK_LIMIT {
      DeepTextThrows(s, m.value, p, e, depth, cur);
    } else {
      TextReads(s, m.value, p, e, depth, cur);
      var child := ParseValue(s, p, depth, cur);
      var next: nat :| Closes(s.doc, 44, e, next) && ElementList(s, m.rest, index + 1, next, q);
      ElementFollows(s, 44, e, next);
      DeepElementsThrow(s, m.rest, next, q, depth, SetChild(arr, Index(index), child.value), index + 1);
    }
  }

  lemma {:induction false} DeepMembersThrow(s: Source, m: Entries, p: nat, q: nat, depth: int, obj: Value, last: bytes)
    requires MemberList(s, m, last, p, q) && depth <= STACK_LIMIT < depth + NestOfEntries(m)
    ensures p <= |s.doc| && ParseMembers(s, p, depth, obj, last).Thrown?
    decreases m, 1
  {
    hide ParseValue, MemberName, MemberFollow, SpacedText, Closes, Label, Separates, Set, Find;
    var name := m.key.s;
    var c: nat, e: nat :| Label(s.doc, name, p, c) && SpacedText(s, m.value, c, e) &&
                          ((m.rest.Nil? && Closes(s.doc, 125, e, q)) || MoreMembers(s, m.rest, name, e, q));
    NameReads(s, name, p, c, last);
    var cur := Get(EntriesOf(obj), m.key);
    if depth + Nest(m.value) > STACK_LIMIT {
      DeepTextThrows(s, m.value, c, e, depth, cur);
    } else {
      TextReads(s, m.value, c, e, depth, cur);
      var child := ParseValue(s, c, depth, cur);
      var next: nat :| Separates(s.doc, e, next) && MemberList(s, m.rest, name, next, q);
      SeparatorFollows(s, e, next);
      DeepMembersThrow(s, m.rest, next, q, depth, SetChild(obj, m.key, child.value), name);
    }
  }

  // --------------------------------------------------------------------------- Main result

  /**
   A document that begins with a text of `w`: reading throws exactly when the tree nests too deeply;
   otherwise it yields the tree read back, and it succeeds unless the strict root feature demands a
   container.
   */
  lemma {:induction false} DocumentReads(s: Source, w: Value, root: Value)
    requires DocumentText(s, w)
    ensures
      var r := ParseDocument(s, root);
      && (r.Thrown? <==> Nest(w) > 1000)
      && (r.Returned? ==>
            && Strip(r.value) == ReadBack(w)
            && (r.ok <==> !s.features.strictRoot || IsContainer(w.data))
            && (r.ok <==> r.errors == []))
  {
    hide ParseValue, SpacedText, FirstToken;
    var q: nat :| SpacedText(s, w, 0, q);
    if Nest(w) > STACK_LIMIT {
      DeepTextThrows(s, w, 0, q, 0, root);
    } else {
      TextReads(s, w, 0, q, 0, root);
      assert Strip(ParseValue(s, 0, 0, root).value).data == ReadBack(w).data;
    }
  }
}
