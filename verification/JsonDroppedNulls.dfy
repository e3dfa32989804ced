/**
 Styled writers whose null symbol is empty: a text without the word for null is never read as a tree
 with nulls, so exactly the trees without nulls survive.
 */
module JsonDroppedNulls {
  import opened Bytes
  import opened JsonNumber
  import opened JsonString
  import opened JsonValue
  import opened JsonLexer
  import opened JsonParser
  import opened JsonFastWriter
  import opened JsonGrammar
  import opened JsonLexemes
  import opened JsonReading
  import opened JsonPrintable
  import opened JsonTokens
  import opened JsonStyledText
  import opened JsonStyledWriter
  import opened JsonStyledRoundTrip

  predicate NoNulls(v: Value) {
    match v.data
    case Null => false
    case Array(m) => NoNullsIn(m)
    case Object(m) => NoNullsIn(m)
    case _ => true
  }

  predicate NoNullsIn(m: Entries) {
    match m
    case Nil => true
    case Cons(_, v, rest) => NoNulls(v) && NoNullsIn(rest)
  }

  // --------------------------------------------------------------------------- Texts without the word

  /** Neither the first letter of `null` nor that of a comment. */
  predicate Harmless(c: byte) {
    c != NULL_TEXT[0] && c != SLASH
  }

  /** From `p` on, string literals apart, no null and no comment begins. */
  predicate Wordless(doc: bytes, p: nat)
    requires p <= |doc|
    decreases |doc| - p
  {
    if p == |doc| then true
    else if doc[p] == QUOTE then Wordless(doc, StringEnd(doc, p + 1).1)
    else Harmless(doc[p]) && Wordless(doc, p + 1)
  }

  predicate NoQuotes(doc: bytes, p: nat, q: nat)
    requires p <= q <= |doc|
  {
    forall i :: p <= i < q ==> doc[i] != QUOTE
  }

  lemma {:induction false} WordlessLater(doc: bytes, p: nat, q: nat)
    requires p <= q <= |doc| && Wordless(doc, p) && NoQuotes(doc, p, q)
    ensures Wordless(doc, q)
    decreases q - p
  {
    if p < q {
      WordlessLater(doc, p + 1, q);
    }
  }

  lemma {:induction false} SpacesHaveNoQuotes(doc: bytes, p: nat)
    requires p <= |doc|
    ensures NoQuotes(doc, p, SkipSpaces(doc, p))
    decreases |doc| - p
  {
    if p < |doc| && IsSpace(doc[p]) {
      SpacesHaveNoQuotes(doc, p + 1);
    }
  }

  lemma {:induction false} DigitsHaveNoQuotes(doc: bytes, p: nat)
    requires p <= |doc|
    ensures NoQuotes(doc, p, DigitsEnd(doc, p))
    decreases |doc| - p
  {
    if p < |doc| && IsDigit(doc[p]) {
      DigitsHaveNoQuotes(doc, p + 1);
    }
  }

  lemma {:induction false} NumberHasNoQuotes(doc: bytes, p: nat)
    requires p <= |doc|
    ensures NoQuotes(doc, p, NumberEnd(doc, p))
  {
    hide DigitsEnd;
    DigitsHaveNoQuotes(doc, p);
    var i := DigitsEnd(doc, p);
    if CharAt(doc, i) == DOT {
      DigitsHaveNoQuotes(doc, i + 1);
    }
    var f := FractionEnd(doc, i);
    assert NoQuotes(doc, p, f);
    if CharAt(doc, f) == 101 || CharAt(doc, f) == 69 {
      if CharAt(doc, f + 1) == PLUS || CharAt(doc, f + 1) == MINUS {
        DigitsHaveNoQuotes(doc, f + 2);
      } else {
        DigitsHaveNoQuotes(doc, f + 1);
      }
    }
  }

  // --------------------------------------------------------------------------- Reading them

  lemma {:induction false} WordEnds(doc: bytes, s: nat, rest: bytes, kind: TokenType)
    requires s < |doc| && doc[s] != QUOTE && Wordless(doc, s) && QUOTE !in rest
    ensures Wordless(doc, WordToken(doc, s, rest, kind).end)
  {
    hide Wordless;
    var end := WordToken(doc, s, rest, kind).end;
    forall i | s <= i < end ensures doc[i] != QUOTE {
      if i > s {
        AtIndex(doc, s + 1, rest, i - s - 1);
      }
    }
    WordlessLater(doc, s, end);
  }

  /** No null and no comment comes up, and what follows the token is of the same kind. */
  lemma {:induction false} TokenOfWordless(doc: bytes, s: nat)
    requires s <= |doc| && Wordless(doc, s)
    ensures var t := TokenAt(doc, s); t.kind != NullToken && t.kind != CommentToken && Wordless(doc, t.end)
  {
    hide StringEnd, NumberEnd, CommentEnd, WordToken;
    if s < |doc| {
      var c := doc[s];
      if IsDigit(c) || c == MINUS {
        NumberHasNoQuotes(doc, s + 1);
        WordlessLater(doc, s + 1, NumberEnd(doc, s + 1));
      } else if c == TRUE_TEXT[0] {
        WordEnds(doc, s, TRUE_TEXT[1..], TrueToken);
        WordKind(doc, s, TRUE_TEXT[1..], TrueToken);
      } else if c == FALSE_TEXT[0] {
        WordEnds(doc, s, FALSE_TEXT[1..], FalseToken);
        WordKind(doc, s, FALSE_TEXT[1..], FalseToken);
      }
    }
  }

  lemma WordKind(doc: bytes, s: nat, rest: bytes, kind: TokenType)
    requires s < |doc|
    ensures WordToken(doc, s, rest, kind).kind in {kind, ErrorToken}
  {
  }

  lemma {:induction false} NextOfWordless(s: Source, p: nat)
    requires p <= |s.doc| && Wordless(s.doc, p)
    ensures var t := NextToken(s.doc, p); t.kind != NullToken && t.kind != CommentToken && Wordless(s.doc, t.end)
    ensures NextSkippingComments(s.doc, p) == NextToken(s.doc, p) == FirstToken(s, p)
  {
    hide TokenAt, Wordless, SkipSpaces, NoQuotes;
    SpacesHaveNoQuotes(s.doc, p);
    WordlessLater(s.doc, p, SkipSpaces(s.doc, p));
    TokenOfWordless(s.doc, SkipSpaces(s.doc, p));
  }

  lemma {:induction false} NamesOfWordless(s: Source, p: nat, name: bytes)
    requires p <= |s.doc| && Wordless(s.doc, p)
    ensures var step := MemberName(s, p, name); !step.BadName? ==> Wordless(s.doc, step.pos)
  {
    hide NextToken, NextSkippingComments, Wordless, DecodeText, RecoverTo;
    NextOfWordless(s, p);
    NextOfWordless(s, NextToken(s.doc, p).end);
  }

  lemma {:induction false} FollowOfWordless(s: Source, p: nat)
    requires p <= |s.doc| && Wordless(s.doc, p)
    ensures var f := MemberFollow(s, p); !f.BadFollow? ==> Wordless(s.doc, f.pos)
    ensures var f := ElementFollow(s, p); !f.BadFollow? ==> Wordless(s.doc, f.pos)
  {
    hide NextToken, NextSkippingComments, Wordless, RecoverTo;
    NextOfWordless(s, p);
  }

  lemma {:induction false} SetNoNulls(m: Entries, key: Key, v: Value)
    requires NoNullsIn(m) && NoNulls(v)
    ensures NoNullsIn(Set(m, key, v))
  {
    if m.Cons? {
      SetNoNulls(m.rest, key, v);
    }
  }

  ghost predicate ReadsWithoutNulls(s: Source, r: Outcome) {
    r.Returned? && r.ok ==> r.pos <= |s.doc| && Wordless(s.doc, r.pos) && NoNulls(r.value)
  }

  lemma {:induction false} ValueWithoutNulls(s: Source, p: nat, depth: int, cur: Value)
    requires p <= |s.doc| && Wordless(s.doc, p)
    ensures ReadsWithoutNulls(s, ParseValue(s, p, depth, cur))
    decreases |s.doc| - p, 0
  {
    hide FirstToken, NextToken, ParseMembers, ParseArray, DecodeText, NumberData, Wordless;
    if depth < STACK_LIMIT {
      NextOfWordless(s, p);
      var t := FirstToken(s, p);
      if t.kind == ObjectBegin {
        MembersWithoutNulls(s, t.end, depth + 1, Value(Object(Nil), t.start, cur.limit), []);
      } else if t.kind == ArrayBegin {
        ArrayWithoutNulls(s, t.end, depth + 1, Value(Array(Nil), t.start, cur.limit));
      } else {
        ScalarWithoutNulls(s, t, depth, cur);
      }
    }
  }

  lemma {:induction false} ScalarWithoutNulls(s: Source, t: Token, depth: int, cur: Value)
    requires t.start <= t.end <= |s.doc| && (t.kind == StringToken ==> t.start + 2 <= t.end)
    requires t.kind != NullToken && Wordless(s.doc, t.end)
    ensures ReadsWithoutNulls(s, ParseScalar(s, t, depth, cur))
  {
    hide Wordless, DecodeText, DecodeSpec;
  }

  lemma {:induction false} MembersWithoutNulls(s: Source, p: nat, depth: int, obj: Value, name: bytes)
    requires p <= |s.doc| && Wordless(s.doc, p) && obj.data.Object? && NoNulls(obj)
    ensures ReadsWithoutNulls(s, ParseMembers(s, p, depth, obj, name))
    ensures var r := ParseMembers(s, p, depth, obj, name); r.Returned? && r.ok ==> r.value.data.Object?
    decreases |s.doc| - p, 1
  {
    hide MemberName, ParseValue, MemberFollow, RecoverTo, Set, Wordless;
    NamesOfWordless(s, p, name);
    var step := MemberName(s, p, name);
    if step.Named? {
      var key := Name(step.key);
      var child := ParseValue(s, step.pos, depth, Get(EntriesOf(obj), key));
      ValueWithoutNulls(s, step.pos, depth, Get(EntriesOf(obj), key));
      if child.Returned? && child.ok {
        var obj' := SetChild(obj, key, child.value);
        SetNoNulls(obj.data.entries, key, child.value);
        FollowOfWordless(s, child.pos);
        var follow := MemberFollow(s, child.pos);
        if follow.More? {
          MembersWithoutNulls(s, follow.pos, depth, obj', step.key);
        }
      }
    }
  }

  lemma {:induction false} ArrayWithoutNulls(s: Source, p: nat, depth: int, arr: Value)
    requires p <= |s.doc| && Wordless(s.doc, p) && arr.data == Array(Nil)
    ensures ReadsWithoutNulls(s, ParseArray(s, p, depth, arr))
    ensures var r := ParseArray(s, p, depth, arr); r.Returned? && r.ok ==> r.value.data.Array?
    decreases |s.doc| - p, 2
  {
    hide ParseElements, SkipSpaces, NoQuotes;
    assert NoNulls(arr);
    var q := SkipSpaces(s.doc, p);
    SpacesHaveNoQuotes(s.doc, p);
    WordlessLater(s.doc, p, q);
    if CharAt(s.doc, q) != RIGHT_BRACKET {
      ElementsWithoutNulls(s, q, depth, arr, 0);
    }
  }

  lemma {:induction false} ElementsWithoutNulls(s: Source, p: nat, depth: int, arr: Value, index: nat)
    requires p <= |s.doc| && Wordless(s.doc, p) && arr.data.Array? && NoNulls(arr)
    ensures ReadsWithoutNulls(s, ParseElements(s, p, depth, arr, index))
    ensures var r := ParseElements(s, p, depth, arr, index); r.Returned? && r.ok ==> r.value.data.Array?
    decreases |s.doc| - p, 1
  {
    hide ParseValue, ElementFollow, RecoverTo, Set, Wordless;
    var cur := Get(EntriesOf(arr), Index(index));
    var child := ParseValue(s, p, depth, cur);
    ValueWithoutNulls(s, p, depth, cur);
    if child.Returned? && child.ok {
      SetNoNulls(arr.data.entries, Index(index), child.value);
      FollowOfWordless(s, child.pos);
      var follow := ElementFollow(s, child.pos);
      if follow.More? {
        ElementsWithoutNulls(s, follow.pos, depth, SetChild(arr, Index(index), child.value), index + 1);
      }
    }
  }

  /** A document without the word never reads as a tree with nulls. */
  lemma {:induction false} DocumentWithoutNulls(s: Source, root: Value)
    requires Wordless(s.doc, 0)
    ensures var r := ParseDocument(s, root); r.Returned? && r.ok ==> NoNulls(r.value)
  {
    hide ParseValue, Wordless;
    ValueWithoutNulls(s, 0, 0, root);
  }

  // --------------------------------------------------------------------------- Writing them

  /** A token that is one whole string literal, or has no null, comment or quote in it. */
  predicate IsWordless(x: bytes) {
    (forall i :: 0 <= i < |x| ==> x[i] != QUOTE && Harmless(x[i])) ||
    (|x| > 0 && x[0] == QUOTE && StringEnd(x, 1) == (true, |x|))
  }

  predicate AllWordless(toks: seq<bytes>) {
    forall x :: x in toks ==> IsWordless(x)
  }

  lemma {:induction false} WordlessEarlier(doc: bytes, p: nat, q: nat)
    requires p <= q <= |doc| && Wordless(doc, q)
    requires forall i :: p <= i < q ==> doc[i] != QUOTE && Harmless(doc[i])
    ensures Wordless(doc, p)
    decreases q - p
  {
    if p < q {
      WordlessEarlier(doc, p + 1, q);
    }
  }

  lemma {:induction false} SpacesAreHarmless(doc: bytes, p: nat)
    requires p <= |doc| && Wordless(doc, SkipSpaces(doc, p))
    ensures Wordless(doc, p)
    decreases |doc| - p
  {
    if p < |doc| && IsSpace(doc[p]) {
      SpacesAreHarmless(doc, p + 1);
    }
  }

  lemma {:induction false} TokenIsWordless(doc: bytes, q: nat, x: bytes)
    requires At(doc, q, x) && IsWordless(x) && x != [] && Wordless(doc, q + |x|)
    ensures Wordless(doc, q)
  {
    hide At, StringEnd;
    NonEmptyAt(doc, q, x);
    if x[0] == QUOTE {
      AtIndex(doc, q, x, 0);
      StringEndExtends(x, 1, doc, q);
    } else {
      forall i | q <= i < q + |x| ensures doc[i] != QUOTE && Harmless(doc[i]) {
        AtIndex(doc, q, x, i - q);
      }
      WordlessEarlier(doc, q, q + |x|);
    }
  }

  lemma {:induction false} SpelledIsWordless(toks: seq<bytes>, doc: bytes, p: nat)
    requires p <= |doc| && SpellsFrom(toks, doc, p) && AllWordless(toks)
    ensures Wordless(doc, p)
    decreases |toks|
  {
    hide StringEnd, At, IsWordless, SkipSpaces, Harmless;
    var q := SkipSpaces(doc, p);
    if toks == [] {
      assert Wordless(doc, |doc|);
    } else {
      assert toks[0] in toks && AllWordless(toks[1..]);
      NonEmptyAt(doc, q, toks[0]);
      SpelledIsWordless(toks[1..], doc, q + |toks[0]|);
      TokenIsWordless(doc, q, toks[0]);
    }
    SpacesAreHarmless(doc, p);
  }

  lemma {:induction false} PunctuationIsWordless()
    ensures forall c :: c in {LEFT_BRACKET, RIGHT_BRACKET, LEFT_BRACE, RIGHT_BRACE, COMMA, COLON} ==> IsWordless([c])
  {
  }

  lemma {:induction false} QuotedIsWordless(s: bytes)
    ensures IsWordless(Quoted(s))
  {
    hide StringEnd, EscapeText, DecodeText;
    QuotedReadsBack(s);
  }

  lemma {:induction false} ScalarIsWordless(d: Data, o: Options, scan: bytes -> Option<Double>)
    requires Printable(Plain(d), o, scan) && !IsContainer(d) && o.dropNullPlaceholders
    ensures AllWordless(ScalarTokens(d, o))
  {
    hide IntText, DecText, Quoted, NumberMeaning, NumberText, IsWordless;
    if IsNumber(d) {
      NumberPrinted(d, o, scan);
      NumberIsWordless(ScalarText(d, o));
    } else if d.Str? {
      QuotedIsWordless(d.s.value);
    } else {
      WordsAreWordless();
    }
  }

  lemma {:induction false} NumberIsWordless(text: bytes)
    requires NumberText(text, 0, |text|)
    ensures IsWordless(text)
  {
    hide NumberText, StringEnd;
    NumberCharacters(text, 0, |text|);
  }

  lemma WordsAreWordless()
    ensures IsWordless(TRUE_TEXT) && IsWordless(FALSE_TEXT)
  {
  }

  /** With an empty null symbol no token of a tree is a null. */
  lemma {:induction false} TokensAreWordless(w: Value, o: Options, scan: bytes -> Option<Double>)
    requires Printable(w, o, scan) && o.dropNullPlaceholders
    ensures AllWordless(Tokens(w, o))
    decreases w, 0
  {
    hide IsWordless, ScalarTokens;
    PunctuationIsWordless();
    match w.data
    case Array(m) => ElementTokensAreWordless(m, 0, o, scan);
    case Object(m) => MemberTokensAreWordless(m, o, scan);
    case d => ScalarIsWordless(d, o, scan);
  }

  lemma {:induction false} ElementTokensAreWordless(m: Entries, i: nat, o: Options, scan: bytes -> Option<Double>)
    requires PrintableElements(m, i, o, scan) && o.dropNullPlaceholders
    ensures AllWordless(ElementTokens(m, o))
    decreases m, 0
  {
    hide IsWordless, Tokens;
    PunctuationIsWordless();
    if m.Cons? {
      TokensAreWordless(m.value, o, scan);
      ElementTokensAreWordless(m.rest, i + 1, o, scan);
    }
  }

  lemma {:induction false} MemberTokensAreWordless(m: Entries, o: Options, scan: bytes -> Option<Double>)
    requires PrintableMembers(m, o, scan) && o.dropNullPlaceholders
    ensures AllWordless(MemberTokens(m, o))
    decreases m, 0
  {
    hide IsWordless, Tokens, Quoted;
    PunctuationIsWordless();
    if m.Cons? {
      QuotedIsWordless(NameOf(m.key));
      TokensAreWordless(m.value, o, scan);
      MemberTokensAreWordless(m.rest, o, scan);
    }
  }

  // --------------------------------------------------------------------------- Trees without nulls

  /** Without nulls the null symbol makes no difference. */
  lemma {:induction false} SameTokens(w: Value, o: Options, o': Options)
    requires NoNulls(w) && o' == o.(dropNullPlaceholders := false)
    ensures Tokens(w, o) == Tokens(w, o')
    decreases w, 0
  {
    match w.data
    case Array(m) => SameTokensIn(m, o, o');
    case Object(m) => SameTokensIn(m, o, o');
    case _ =>
  }

  lemma {:induction false} SameTokensIn(m: Entries, o: Options, o': Options)
    requires NoNullsIn(m) && o' == o.(dropNullPlaceholders := false)
    ensures ElementTokens(m, o) == ElementTokens(m, o') && MemberTokens(m, o) == MemberTokens(m, o')
    decreases m, 0
  {
    hide Tokens;
    if m.Cons? {
      SameTokens(m.value, o, o');
      SameTokensIn(m.rest, o, o');
    }
  }

  /** Cutting names and dropping offsets neither add nor remove nulls. */
  lemma {:induction false} NullsStay(w: Value)
    ensures NoNulls(CutKeys(w)) == NoNulls(Strip(w)) == NoNulls(w)
    decreases w, 0
  {
    match w.data
    case Array(m) => NullsStayIn(m);
    case Object(m) => NullsStayIn(m);
    case _ =>
  }

  lemma {:induction false} NullsStayIn(m: Entries)
    ensures NoNullsIn(CutKeysOf(m)) == NoNullsIn(StripEntries(m)) == NoNullsIn(m)
    decreases m, 0
  {
    hide CutKeys, Strip, NoNulls;
    if m.Cons? {
      NullsStay(m.value);
      NullsStayIn(m.rest);
    }
  }

  /** Nor does reading back, which does not depend on the null symbol. */
  lemma {:induction false} AsReadNulls(w: Value, o: Options, o': Options, scan: bytes -> Option<Double>)
    requires Printable(w, o, scan) && o' == o.(dropNullPlaceholders := false)
    ensures NoNulls(AsRead(w, o, scan)) == NoNulls(w) && AsRead(w, o', scan) == AsRead(w, o, scan)
    decreases w, 0
  {
    hide NumberMeaning, NumberText;
    match w.data
    case Array(m) => AsReadElementsNulls(m, 0, o, o', scan);
    case Object(m) => AsReadMembersNulls(m, o, o', scan);
    case Real(x) => MeaningIsNumber(scan, o.formatReal(x));
    case _ =>
  }

  lemma {:induction false} AsReadElementsNulls(m: Entries, i: nat, o: Options, o': Options,
                                               scan: bytes -> Option<Double>)
    requires PrintableElements(m, i, o, scan) && o' == o.(dropNullPlaceholders := false)
    ensures NoNullsIn(AsReadEntries(m, o, scan)) == NoNullsIn(m)
    ensures AsReadEntries(m, o', scan) == AsReadEntries(m, o, scan)
    decreases m, 0
  {
    hide AsRead, NoNulls, Printable;
    if m.Cons? {
      AsReadNulls(m.value, o, o', scan);
      AsReadElementsNulls(m.rest, i + 1, o, o', scan);
    }
  }

  lemma {:induction false} AsReadMembersNulls(m: Entries, o: Options, o': Options, scan: bytes -> Option<Double>)
    requires PrintableMembers(m, o, scan) && o' == o.(dropNullPlaceholders := false)
    ensures NoNullsIn(AsReadEntries(m, o, scan)) == NoNullsIn(m)
    ensures AsReadEntries(m, o', scan) == AsReadEntries(m, o, scan)
    decreases m, 0
  {
    hide AsRead, NoNulls, Printable;
    if m.Cons? {
      AsReadNulls(m.value, o, o', scan);
      AsReadMembersNulls(m.rest, o, o', scan);
    }
  }

  lemma {:induction false} SameStorable(v: Value, o: Options, o': Options, scan: bytes -> Option<Double>)
    requires Storable(v, o, scan) && o' == o.(dropNullPlaceholders := false)
    ensures Storable(v, o', scan)
    decreases v, 0
  {
    hide Readable;
    match v.data
    case Array(m) => SameStorableIn(m, o, o', scan);
    case Object(m) => SameStorableIn(m, o, o', scan);
    case _ =>
  }

  lemma {:induction false} SameStorableIn(m: Entries, o: Options, o': Options, scan: bytes -> Option<Double>)
    requires StorableEntries(m, o, scan) && o' == o.(dropNullPlaceholders := false)
    ensures StorableEntries(m, o', scan)
    decreases m, 0
  {
    hide Storable;
    if m.Cons? {
      SameStorable(m.value, o, o', scan);
      SameStorableIn(m.rest, o, o', scan);
    }
  }

  // --------------------------------------------------------------------------- Main result

  /**
   A tree survives being written by a styled writer and read back, under any null symbol, exactly when it
   nests within the limit, its root is allowed, no name is cut, and the symbol is not empty or there is
   no null, missing array slots counting as nulls.
   */
  lemma {:induction false} SurvivesIff(v: Value, cut: bool, o: Options, text: bytes,
                                       features: Features, scan: bytes -> Option<Double>, root: Value)
    requires Valid(v) && Storable(v, o, scan) && Spells(TokensOf(v, cut, o), text)
    ensures
      var r := ParseDocument(Source(text, features, scan), root);
      r.Returned? && r.ok && Strip(r.value) == AsRead(FilledValue(v), o, scan) <==>
        && Nest(FilledValue(v)) <= 1000
        && (!features.strictRoot || IsContainer(v.data))
        && (!cut || NulFree(v))
        && (!o.dropNullPlaceholders || NoNulls(FilledValue(v)))
  {
    hide Tokens, ParseDocument, CutKeys, AsRead, NulFree, NoNulls, Strip, Nest, FilledValue, Storable, Printable;
    var w := FilledValue(v);
    var r := ParseDocument(Source(text, features, scan), root);
    NullsStay(w);
    if r.Returned? {
      NullsStay(r.value);
    }
    FilledIsPrintable(v, o, scan);
    var o' := o.(dropNullPlaceholders := false);
    AsReadNulls(w, o, o', scan);
    if !o.dropNullPlaceholders {
      StyledRoundTrip(v, cut, o, text, features, scan, root);
    } else if NoNulls(w) {
      SameTokens(Shown(w, cut), o, o');
      SameStorable(v, o, o', scan);
      StyledRoundTrip(v, cut, o', text, features, scan, root);
    } else {
      DroppedNullsWordless(v, cut, o, text, scan);
      DocumentWithoutNulls(Source(text, features, scan), root);
    }
  }

  /** What does not survive need not be refused: an array of one null reads back as an empty array. */
  lemma {:induction false} LoneNullReadsEmpty(cut: bool, o: Options, text: bytes,
                                              features: Features, scan: bytes -> Option<Double>, root: Value)
    requires o.dropNullPlaceholders
    requires Spells(TokensOf(Plain(Array(Cons(Index(0), Plain(Null), Nil))), cut, o), text)
    ensures
      var r := ParseDocument(Source(text, features, scan), root);
      r.Returned? && r.ok && Strip(r.value) == Plain(Array(Nil))
  {
    hide ParseDocument, Spells;
    var lone, none := Plain(Array(Cons(Index(0), Plain(Null), Nil))), Plain(Array(Nil));
    assert FilledValue(lone) == lone && Shown(lone, cut) == lone;
    assert Tokens(Plain(Null), o) == [] && ElementTokens(lone.data.entries, o) == [];
    assert TokensOf(lone, cut, o) == [[LEFT_BRACKET], [RIGHT_BRACKET]] == TokensOf(none, cut, o);
    assert AsRead(FilledValue(none), o, scan) == none;
    SurvivesIff(none, cut, o, text, features, scan, root);
  }

  lemma {:induction false} DroppedNullsWordless(v: Value, cut: bool, o: Options, text: bytes,
                                                scan: bytes -> Option<Double>)
    requires Valid(v) && Storable(v, o, scan) && o.dropNullPlaceholders && Spells(TokensOf(v, cut, o), text)
    ensures Wordless(text, 0)
  {
    hide Tokens, CutKeys, Wordless, SpellsFrom, AllWordless, Printable;
    var w := FilledValue(v);
    FilledIsPrintable(v, o, scan);
    CutPrintable(w, o, scan);
    TokensAreWordless(Shown(w, cut), o, scan);
    SpelledIsWordless(TokensOf(v, cut, o), text, 0);
  }
}
