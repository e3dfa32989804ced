/** The reader accepts nothing but texts of the grammar, and accepts a text only as what it writes down. */
module JsonSoundness {
  import opened Bytes
  import opened JsonString
  import opened JsonValue
  import opened JsonLexer
  import opened JsonParser
  import opened JsonGrammar
  import opened JsonLexemes
  import opened JsonReading

  // --------------------------------------------------------------------------- Scalars

  /** The reading succeeded. */
  predicate Succeeded(r: Outcome) {
    r.Returned? && r.ok
  }

  lemma {:induction false} ScalarIsText(s: Source, a: nat, depth: int, cur: Value)
    requires a <= |s.doc| && Succeeded(ParseScalar(s, TokenAt(s.doc, a), depth, cur))
    ensures
      var r := ParseScalar(s, TokenAt(s.doc, a), depth, cur);
      !IsContainer(r.value.data) && ValueText(s, Plain(r.value.data), a, r.pos)
  {
    hide TokenAt, DecodeText, PiecesAt, Literal, LongestNumber, NumberMeaning, NumberData, At;
    AtTheEnd(s.doc, a);
    var t := TokenAt(s.doc, a);
    if t.kind == StringToken {
      LiteralRead(s.doc, a);
    } else if t.kind == NumberToken {
      NumberRead(s.doc, a);
      NumberMeaningAgrees(s, t);
      MeaningIsNumber(s.scan, s.doc[t.start..t.end]);
    } else {
      WordsRead(s.doc, a);
    }
  }


  lemma AtTheEnd(doc: bytes, a: nat)
    requires a <= |doc| && TokenAt(doc, a).kind != EndOfStream
    ensures a < |doc|
  {
  }

  // --------------------------------------------------------------------------- Containers

  lemma {:induction false} ClosesAtToken(doc: bytes, c: byte, p: nat)
    requires p <= |doc|
    requires NextSkippingComments(doc, p).kind == if c == 44 then ArraySeparator else if c == 93 then ArrayEnd
                                                  else ObjectEnd
    requires c in {44, 93, 125}
    ensures Closes(doc, c, p, NextSkippingComments(doc, p).end)
  {
    hide TokenAt, Gap;
    GapBeforeToken(doc, p);
    var t := NextSkippingComments(doc, p);
    AtTheEnd(doc, t.start);
    PunctuationTokens(doc, t.start);
  }

  lemma {:induction false} ElementFollowIsText(s: Source, p: nat)
    requires p <= |s.doc| && !ElementFollow(s, p).BadFollow?
    ensures var f := ElementFollow(s, p); Closes(s.doc, if f.Last? then 93 else 44, p, f.pos)
  {
    hide Closes, NextSkippingComments, RecoverTo;
    ClosesAtToken(s.doc, if ElementFollow(s, p).Last? then 93 else 44, p);
  }

  lemma {:induction false} MemberFollowIsText(s: Source, p: nat)
    requires p <= |s.doc| && !MemberFollow(s, p).BadFollow?
    ensures
      var f := MemberFollow(s, p);
      if f.Last? then Closes(s.doc, 125, p, f.pos) else Separates(s.doc, p, f.pos)
  {
    hide Closes, TokenAt, RecoverTo, Blanks;
    var f, t := MemberFollow(s, p), NextSkippingComments(s.doc, p);
    if f.Last? {
      ClosesAtToken(s.doc, 125, p);
    } else if t.kind == ArraySeparator {
      ClosesAtToken(s.doc, 44, p);
    } else {
      CommentFirst(s.doc, p);
    }
  }

  /** When the next token is a comment, what comes before the first other one is not white space only. */
  lemma {:induction false} CommentFirst(doc: bytes, p: nat)
    requires p <= |doc| && NextToken(doc, p).kind == CommentToken
    ensures !Blanks(doc, p, NextSkippingComments(doc, p).start)
  {
    hide TokenAt;
    var t := NextToken(doc, p);
    SlashBegins(doc, t.start);
    GapBeforeToken(doc, p);
  }

  lemma SlashBegins(doc: bytes, p: nat)
    requires p <= |doc| && TokenAt(doc, p).kind == CommentToken
    ensures p < |doc| && doc[p] == 47
  {
  }

  lemma {:induction false} NameIsText(s: Source, p: nat, last: bytes)
    requires p <= |s.doc| && MemberName(s, p, last).Named?
    ensures var n := MemberName(s, p, last); Label(s.doc, n.key, p, n.pos)
  {
    hide TokenAt, DecodeText, Literal, Gap, RecoverTo;
    GapBeforeToken(s.doc, p);
    var t := NextSkippingComments(s.doc, p);
    AtTheEnd(s.doc, t.start);
    LiteralRead(s.doc, t.start);
    SkippedBlanks(s.doc, t.end);
    var colon := NextToken(s.doc, t.end);
    AtTheEnd(s.doc, colon.start);
    PunctuationTokens(s.doc, colon.start);
    assert ColonAt(s.doc, t.end, colon.end);
  }

  lemma {:induction false} NoNameIsText(s: Source, p: nat, last: bytes)
    requires p <= |s.doc| && MemberName(s, p, last).NoMember?
    ensures last == [] && Closes(s.doc, 125, p, MemberName(s, p, last).pos)
  {
    hide TokenAt, Closes, RecoverTo;
    ClosesAtToken(s.doc, 125, p);
  }

  // --------------------------------------------------------------------------- Reading

  /** Whatever is read as a value is a text, of a tree that is read back as the value. */
  lemma {:induction false} ReadIsText(s: Source, p: nat, depth: int, cur: Value) returns (w: Value)
    requires p <= |s.doc| && Succeeded(ParseValue(s, p, depth, cur))
    ensures
      var r := ParseValue(s, p, depth, cur);
      SpacedText(s, w, p, r.pos) && Strip(r.value) == ReadBack(w) && depth + Nest(w) <= STACK_LIMIT
    decreases |s.doc| - p, 0
  {
    hide Lead, ElementList, MemberList, FirstToken, TokenAt, ParseScalar, ParseArray, ParseMembers, ParseValue,
         Blanks, ValueText;
    DepthFits(s, p, depth, cur);
    FirstDecides(s, p, depth, cur);
    LeadBeforeToken(s, p);
    var t := FirstToken(s, p);
    var a := t.start;
    if t.kind == ObjectBegin {
      AtTheEnd(s.doc, a);
      PunctuationTokens(s.doc, a);
      var m := MembersAreText(s, t.end, depth + 1, Value(Object(Nil), a, cur.limit), []);
      w := Plain(Object(m));
      AssembledObject(s, m, a, ParseValue(s, p, depth, cur).pos);
    } else if t.kind == ArrayBegin {
      AtTheEnd(s.doc, a);
      PunctuationTokens(s.doc, a);
      var m := ArrayIsText(s, t.end, depth + 1, Value(Array(Nil), a, cur.limit));
      w := Plain(Array(m));
      AssembledArray(s, m, a, ParseValue(s, p, depth, cur).pos);
    } else {
      ScalarIsText(s, a, depth, cur);
      w := Plain(ParseScalar(s, t, depth, cur).value.data);
    }
    assert ValueText(s, w, a, ParseValue(s, p, depth, cur).pos);
  }

  lemma AssembledObject(s: Source, m: Entries, a: nat, q: nat)
    requires a < q <= |s.doc| && s.doc[a] == 123 && MemberList(s, m, [], a + 1, q)
    ensures ValueText(s, Plain(Object(m)), a, q)
  {
  }

  lemma AssembledArray(s: Source, m: Entries, a: nat, q: nat)
    requires a < q <= |s.doc| && s.doc[a] == 91
    requires if m.Nil? then a + 1 < q && Blanks(s.doc, a + 1, q - 1) && s.doc[q - 1] == 93
             else ElementList(s, m, 0, a + 1, q)
    ensures ValueText(s, Plain(Array(m)), a, q)
  {
  }

  lemma DepthFits(s: Source, p: nat, depth: int, cur: Value)
    requires p <= |s.doc| && ParseValue(s, p, depth, cur).Returned?
    ensures depth < STACK_LIMIT
  {
  }

  lemma {:induction false} MembersAreText(s: Source, p: nat, depth: int, obj: Value, last: bytes) returns (m: Entries)
    requires p <= |s.doc| && Succeeded(ParseMembers(s, p, depth, obj, last)) && obj.data.Object?
    requires depth <= STACK_LIMIT
    ensures
      var r := ParseMembers(s, p, depth, obj, last);
      && MemberList(s, m, last, p, r.pos) && depth + NestOfEntries(m) <= STACK_LIMIT && r.value.data.Object?
      && StripEntries(r.value.data.entries) == Entered(StripEntries(obj.data.entries), m)
    decreases |s.doc| - p, 1
  {
    hide MemberName, ParseValue, MemberFollow, RecoverTo, Set, SpacedText, Closes, Label, Separates, ReadBack, Nest;
    var step := MemberName(s, p, last);
    if step.NoMember? {
      NoNameIsText(s, p, last);
      m := Nil;
    } else {
      var key := Name(step.key);
      NameIsText(s, p, last);
      var child := ParseValue(s, step.pos, depth, Get(EntriesOf(obj), key));
      var v := ReadIsText(s, step.pos, depth, Get(EntriesOf(obj), key));
      var obj' := SetChild(obj, key, child.value);
      StripSet(obj.data.entries, key, child.value);
      MemberFollowIsText(s, child.pos);
      var follow := MemberFollow(s, child.pos);
      if follow.Last? {
        m := Cons(key, v, Nil);
        assert Entered(Set(StripEntries(obj.data.entries), key, ReadBack(v)), Nil) ==
               Set(StripEntries(obj.data.entries), key, ReadBack(v));
      } else {
        var rest := MembersAreText(s, follow.pos, depth, obj', step.key);
        m := Cons(key, v, rest);
        assert MoreMembers(s, rest, step.key, child.pos, ParseMembers(s, p, depth, obj, last).pos);
      }
    }
  }

  lemma {:induction false} ArrayIsText(s: Source, p: nat, depth: int, arr: Value) returns (m: Entries)
    requires p <= |s.doc| && Succeeded(ParseArray(s, p, depth, arr)) && arr.data == Array(Nil)
    requires depth <= STACK_LIMIT
    ensures
      var r := ParseArray(s, p, depth, arr);
      && (if m.Nil? then p < r.pos <= |s.doc| && Blanks(s.doc, p, r.pos - 1) && s.doc[r.pos - 1] == 93
          else ElementList(s, m, 0, p, r.pos))
      && depth + NestOfEntries(m) <= STACK_LIMIT && r.value.data.Array?
      && StripEntries(r.value.data.entries) == ReadBackElements(m)
    decreases |s.doc| - p, 2
  {
    hide ParseElements, SkipSpaces, ElementList, Blanks;
    var q := SkipSpaces(s.doc, p);
    SkippedBlanks(s.doc, p);
    if CharAt(s.doc, q) == RIGHT_BRACKET {
      m := Nil;
      assert StripEntries(Nil) == Nil && ReadBackElements(Nil) == Nil && NestOfEntries(Nil) == 0;
    } else {
      m := ElementsAreText(s, q, depth, arr, 0);
      assert Append(StripEntries(Nil), ReadBackElements(m)) == ReadBackElements(m);
      BlanksBeforeElements(s, m, 0, p, q, ParseArray(s, p, depth, arr).pos);
    }
  }

  /** White space in front of a text belongs to what may stand before it. */
  lemma {:induction false} BlanksBeforeElements(s: Source, m: Entries, i: nat, p: nat, z: nat, q: nat)
    requires Blanks(s.doc, p, z) && ElementList(s, m, i, z, q)
    ensures ElementList(s, m, i, p, q) && m.Cons?
  {
    hide SpacedText, Closes, Blanks;
    var e: nat :| SpacedText(s, m.value, z, e) &&
                  if m.rest.Nil? then Closes(s.doc, 93, e, q)
                  else exists next :: Closes(s.doc, 44, e, next) && ElementList(s, m.rest, i + 1, next, q);
    BlanksBeforeValue(s, m.value, p, z, e);
  }

  lemma {:induction false} BlanksBeforeValue(s: Source, w: Value, p: nat, z: nat, q: nat)
    requires Blanks(s.doc, p, z) && SpacedText(s, w, z, q)
    ensures SpacedText(s, w, p, q)
  {
    hide ValueText;
    var a: nat :| Lead(s, z, a) && ValueText(s, w, a, q);
    if s.features.allowComments {
      GapInside(s.doc, z, a);
      BlanksAreGap(s.doc, p, z);
      GapJoin(s.doc, p, z, a);
    }
    assert Lead(s, p, a);
  }

  lemma {:induction false} ElementsAreText(s: Source, p: nat, depth: int, arr: Value, index: nat) returns (m: Entries)
    requires p <= |s.doc| && Succeeded(ParseElements(s, p, depth, arr, index)) && depth <= STACK_LIMIT
    requires arr.data.Array? && AllBelow(arr.data.entries, Index(index))
    ensures
      var r := ParseElements(s, p, depth, arr, index);
      && ElementList(s, m, index, p, r.pos) && depth + NestOfEntries(m) <= STACK_LIMIT && r.value.data.Array?
      && StripEntries(r.value.data.entries) == Append(StripEntries(arr.data.entries), ReadBackElements(m))
    decreases |s.doc| - p, 1
  {
    hide ParseValue, ElementFollow, RecoverTo, Set, SpacedText, Closes, ReadBack, Nest;
    var cur, acc := Get(EntriesOf(arr), Index(index)), arr.data.entries;
    var child := ParseValue(s, p, depth, cur);
    var v := ReadIsText(s, p, depth, cur);
    var arr' := SetChild(arr, Index(index), child.value);
    ElementFollowIsText(s, child.pos);
    var follow := ElementFollow(s, child.pos);
    if follow.Last? {
      m := Cons(Index(index), v, Nil);
      SetAppends(acc, Index(index), child.value, Nil);
      AppendNil(StripEntries(arr'.data.entries));
    } else {
      SetAtEnd(acc, Index(index), child.value);
      AllBelowAfterAppend(acc, Index(index), child.value, Index(index + 1));
      var rest := ElementsAreText(s, follow.pos, depth, arr', index + 1);
      m := Cons(Index(index), v, rest);
      SetAppends(acc, Index(index), child.value, ReadBackElements(rest));
      ListIsNotEmpty(s, rest, index + 1, follow.pos, ParseElements(s, p, depth, arr, index).pos);
    }
  }

  lemma ListIsNotEmpty(s: Source, m: Entries, i: nat, p: nat, q: nat)
    requires ElementList(s, m, i, p, q)
    ensures m.Cons?
  {
  }

  // --------------------------------------------------------------------------- Main results

  /** What must hold of a tree for its text to be accepted. */
  predicate Acceptable(features: Features, w: Value) {
    Nest(w) <= 1000 && (features.strictRoot ==> IsContainer(w.data))
  }

  /** The reader accepts a document as `x` exactly when it begins with an acceptable text that is read back as `x`. */
  lemma {:induction false} AcceptedIffText(s: Source, root: Value, x: Value)
    ensures
      var r := ParseDocument(s, root);
      r.Returned? && r.ok && Strip(r.value) == x <==>
      exists w :: DocumentText(s, w) && Acceptable(s.features, w) && ReadBack(w) == x
  {
    hide ParseValue, FirstToken, ReadBack, SpacedText, Nest;
    var r := ParseDocument(s, root);
    if r.Returned? && r.ok && Strip(r.value) == x {
      var w := ReadIsText(s, 0, 0, root);
      SameShape(r.value, w);
      assert DocumentText(s, w) && Acceptable(s.features, w) && ReadBack(w) == x;
    }
    forall w | DocumentText(s, w) && Acceptable(s.features, w) && ReadBack(w) == x
      ensures r.Returned? && r.ok && Strip(r.value) == x
    {
      DocumentReads(s, w, root);
    }
  }

  lemma {:induction false} SameShape(v: Value, w: Value)
    requires Strip(v) == ReadBack(w)
    ensures IsContainer(v.data) == IsContainer(w.data)
  {
    hide Strip, ReadBack;
    StripShape(v);
    ReadBackShape(w);
  }

  lemma StripShape(v: Value)
    ensures IsContainer(Strip(v).data) == IsContainer(v.data)
  {
  }

  lemma {:induction false} ReadBackShape(w: Value)
    ensures IsContainer(ReadBack(w).data) == IsContainer(w.data)
  {
    hide Entered, ReadBackElements;
  }

  // --------------------------------------------------------------------------- Errors

  /** The message fits the token, which stands in the document. */
  predicate Justified(s: Source, e: Error) {
    var t := e.token;
    && t.start <= t.end <= |s.doc| && t == TokenAt(s.doc, t.start)
    && match e.message
       case ValueExpected =>
         t.kind !in {ObjectBegin, ArrayBegin, StringToken, NumberToken, TrueToken, FalseToken, NullToken}
       case MemberNameExpected => t.kind != StringToken && t.kind != CommentToken
       case ColonExpected => t.kind != MemberSeparator
       case MemberSeparatorExpected => t.kind !in {ObjectEnd, ArraySeparator, CommentToken}
       case ElementSeparatorExpected => t.kind !in {ArrayEnd, ArraySeparator, CommentToken}
       case NotANumber => t.kind == NumberToken && NumberMeaning(s.scan, s.doc[t.start..t.end]).None?
       case BadString(m) =>
         t.kind == StringToken && e.extra.Some? &&
         DecodeText(s.doc, t.start + 1, t.end - 1) == BadText(m, e.extra.value)
       case RootNotContainer => false
  }

  /** A failed reading records one error, which is justified: recovering drops whatever else it meets. */
  ghost predicate FailsOnce(s: Source, r: Outcome) {
    r.Returned? && !r.ok ==> |r.errors| == 1 && Justified(s, r.errors[0])
  }

  lemma {:induction false} ScalarFailsOnce(s: Source, a: nat, depth: int, cur: Value)
    requires a <= |s.doc| && TokenAt(s.doc, a).kind !in {ObjectBegin, ArrayBegin}
    ensures FailsOnce(s, ParseScalar(s, TokenAt(s.doc, a), depth, cur))
  {
    hide TokenAt, DecodeText, NumberMeaning, NumberData;
    NumberMeaningAgrees(s, TokenAt(s.doc, a));
  }

  lemma {:induction false} ValueFailsOnce(s: Source, p: nat, depth: int, cur: Value)
    requires p <= |s.doc|
    ensures FailsOnce(s, ParseValue(s, p, depth, cur))
    decreases |s.doc| - p, 0
  {
    hide ParseMembers, ParseArray, FirstToken, TokenAt, ParseScalar, ParseValue, Justified;
    if depth < STACK_LIMIT {
      var t := FirstToken(s, p);
      FirstDecides(s, p, depth, cur);
      LeadBeforeToken(s, p);
      if t.kind == ObjectBegin {
        MembersFailOnce(s, t.end, depth + 1, Value(Object(Nil), t.start, cur.limit), []);
      } else if t.kind == ArrayBegin {
        ArrayFailsOnce(s, t.end, depth + 1, Value(Array(Nil), t.start, cur.limit));
      } else {
        ScalarFailsOnce(s, t.start, depth, cur);
      }
    } else {
      assert ParseValue(s, p, depth, cur).Thrown? by {
        TooDeep(s, p, depth, cur);
      }
    }
  }

  lemma TooDeep(s: Source, p: nat, depth: int, cur: Value)
    requires p <= |s.doc| && depth >= STACK_LIMIT
    ensures ParseValue(s, p, depth, cur).Thrown?
  {
  }

  lemma {:induction false} NameFails(s: Source, p: nat, last: bytes)
    requires p <= |s.doc| && MemberName(s, p, last).BadName?
    ensures Justified(s, MemberName(s, p, last).e)
  {
    hide TokenAt, DecodeText, RecoverTo, Gap, SkipSpaces;
    GapBeforeToken(s.doc, p);
  }

  lemma {:induction false} FollowFails(s: Source, p: nat)
    requires p <= |s.doc|
    ensures MemberFollow(s, p).BadFollow? ==> Justified(s, MemberFollow(s, p).e)
    ensures ElementFollow(s, p).BadFollow? ==> Justified(s, ElementFollow(s, p).e)
  {
    hide TokenAt, RecoverTo, Gap, SkipSpaces;
    GapBeforeToken(s.doc, p);
  }

  lemma {:induction false} MembersFailOnce(s: Source, p: nat, depth: int, obj: Value, last: bytes)
    requires p <= |s.doc|
    ensures FailsOnce(s, ParseMembers(s, p, depth, obj, last))
    decreases |s.doc| - p, 1
  {
    hide MemberName, ParseValue, MemberFollow, RecoverTo, SetChild, Justified;
    var step := MemberName(s, p, last);
    if step.BadName? {
      NameFails(s, p, last);
    } else if step.Named? {
      var child := ParseValue(s, step.pos, depth, Get(EntriesOf(obj), Name(step.key)));
      ValueFailsOnce(s, step.pos, depth, Get(EntriesOf(obj), Name(step.key)));
      if Succeeded(child) {
        FollowFails(s, child.pos);
        if MemberFollow(s, child.pos).More? {
          MembersFailOnce(s, MemberFollow(s, child.pos).pos, child.depth, SetChild(obj, Name(step.key), child.value),
                          step.key);
        }
      }
    }
  }

  lemma {:induction false} ArrayFailsOnce(s: Source, p: nat, depth: int, arr: Value)
    requires p <= |s.doc|
    ensures FailsOnce(s, ParseArray(s, p, depth, arr))
    decreases |s.doc| - p, 2
  {
    hide ParseElements, SkipSpaces, Justified;
    ElementsFailOnce(s, SkipSpaces(s.doc, p), depth, arr, 0);
  }

  lemma {:induction false} ElementsFailOnce(s: Source, p: nat, depth: int, arr: Value, index: nat)
    requires p <= |s.doc|
    ensures FailsOnce(s, ParseElements(s, p, depth, arr, index))
    decreases |s.doc| - p, 1
  {
    hide ParseValue, ElementFollow, RecoverTo, SetChild, Justified;
    var child := ParseValue(s, p, depth, Get(EntriesOf(arr), Index(index)));
    ValueFailsOnce(s, p, depth, Get(EntriesOf(arr), Index(index)));
    if Succeeded(child) {
      FollowFails(s, child.pos);
      if ElementFollow(s, child.pos).More? {
        ElementsFailOnce(s, ElementFollow(s, child.pos).pos, child.depth, SetChild(arr, Index(index), child.value),
                         index + 1);
      }
    }
  }

  /** The tokens from `p` on, the end of the stream included. */
  function TokensFrom(doc: bytes, p: nat): (ts: seq<Token>)
    requires p <= |doc|
    ensures ts != []
    decreases |doc| - p
  {
    var t := NextToken(doc, p);
    if t.kind == EndOfStream then [t] else [t] + TokensFrom(doc, t.end)
  }

  /** Recovery stops behind the first token of the wanted kind, or behind the end. */
  lemma {:induction false} RecoveryFinds(doc: bytes, p: nat, until: TokenType) returns (k: nat)
    requires p <= |doc|
    ensures
      var ts := TokensFrom(doc, p);
      && k < |ts| && RecoverTo(doc, p, until) == ts[k].end && (ts[k].kind == until || k == |ts| - 1)
      && forall j :: 0 <= j < k ==> ts[j].kind != until
    decreases |doc| - p
  {
    hide NextToken;
    var t := NextToken(doc, p);
    k := 0;
    if t.kind != until && t.kind != EndOfStream {
      var later := RecoveryFinds(doc, t.end, until);
      k := later + 1;
    }
  }

  /** A document that is refused has one justified error for its text, one for its root, or both. */
  lemma {:induction false} ErrorsOfDocument(s: Source, root: Value)
    ensures
      var r := ParseDocument(s, root);
      r.Returned? ==>
        && |r.errors| == (if ParseValue(s, 0, 0, root).ok then 0 else 1) +
                         (if s.features.strictRoot && !IsContainer(r.value.data) then 1 else 0)
        && (r.ok <==> r.errors == [])
        && (!ParseValue(s, 0, 0, root).ok ==> Justified(s, r.errors[0]))
        && (s.features.strictRoot && !IsContainer(r.value.data) ==>
              r.errors[|r.errors| - 1] == Error(RootNotContainer, Token(ErrorToken, 0, |s.doc|), None))
  {
    hide ParseValue, FirstToken, Justified;
    ValueFailsOnce(s, 0, 0, root);
  }
}
