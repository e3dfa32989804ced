/**
 Reading inside a window: a value that ends before some position is read in the same way when the
 document is cut off there, and when what lies before the value is cut off too.
 */
module JsonWindow {
  import opened Bytes
  import opened JsonNumber
  import opened JsonString
  import opened JsonValue
  import opened JsonLexer
  import opened JsonParser

  /** A place `p` of the document between the borders of a window. */
  predicate InWindow(doc: bytes, a: nat, p: nat, b: nat) {
    a <= p <= b <= |doc|
  }

  lemma CharInWindow(doc: bytes, a: nat, p: nat, b: nat)
    requires InWindow(doc, a, p, b)
    ensures CharAt(doc[a..b], p - a) == if p < b then CharAt(doc, p) else NUL
  {
  }

  lemma {:induction false} SliceInWindow(doc: bytes, a: nat, p: nat, q: nat, b: nat)
    requires a <= p <= q <= b <= |doc|
    ensures doc[a..b][p - a..q - a] == doc[p..q]
  {
    forall i | 0 <= i < q - p ensures doc[a..b][p - a..q - a][i] == doc[p..q][i] {
    }
  }

  // --------------------------------------------------------------------------- Scanning

  lemma {:induction false} SpacesInWindow(doc: bytes, a: nat, p: nat, b: nat)
    requires InWindow(doc, a, p, b) && SkipSpaces(doc, p) <= b
    ensures SkipSpaces(doc[a..b], p - a) == SkipSpaces(doc, p) - a
    decreases b - p
  {
    if p < b && IsSpace(doc[p]) {
      SpacesInWindow(doc, a, p + 1, b);
    }
  }

  lemma {:induction false} DigitsInWindow(doc: bytes, a: nat, p: nat, b: nat)
    requires InWindow(doc, a, p, b) && DigitsEnd(doc, p) <= b
    ensures DigitsEnd(doc[a..b], p - a) == DigitsEnd(doc, p) - a
    decreases b - p
  {
    if p < b && IsDigit(doc[p]) {
      DigitsInWindow(doc, a, p + 1, b);
    }
  }

  lemma {:induction false} NumberInWindow(doc: bytes, a: nat, p: nat, b: nat)
    requires InWindow(doc, a, p, b) && NumberEnd(doc, p) <= b
    ensures NumberEnd(doc[a..b], p - a) == NumberEnd(doc, p) - a
  {
    hide DigitsEnd, FractionEnd, ExponentEnd;
    DigitsInWindow(doc, a, p, b);
    FractionInWindow(doc, a, DigitsEnd(doc, p), b);
    ExponentInWindow(doc, a, FractionEnd(doc, DigitsEnd(doc, p)), b);
  }

  lemma {:induction false} FractionInWindow(doc: bytes, a: nat, i: nat, b: nat)
    requires InWindow(doc, a, i, b) && FractionEnd(doc, i) <= b
    ensures FractionEnd(doc[a..b], i - a) == FractionEnd(doc, i) - a
  {
    hide DigitsEnd;
    CharInWindow(doc, a, i, b);
    if CharAt(doc, i) == DOT {
      DigitsInWindow(doc, a, i + 1, b);
    }
  }

  lemma {:induction false} ExponentInWindow(doc: bytes, a: nat, f: nat, b: nat)
    requires InWindow(doc, a, f, b) && ExponentEnd(doc, f) <= b
    ensures ExponentEnd(doc[a..b], f - a) == ExponentEnd(doc, f) - a
  {
    hide DigitsEnd;
    CharInWindow(doc, a, f, b);
    if CharAt(doc, f) == 101 || CharAt(doc, f) == 69 {
      CharInWindow(doc, a, f + 1, b);
      if CharAt(doc, f + 1) == PLUS || CharAt(doc, f + 1) == MINUS {
        DigitsInWindow(doc, a, f + 2, b);
      } else {
        DigitsInWindow(doc, a, f + 1, b);
      }
    }
  }

  lemma {:induction false} StringInWindow(doc: bytes, a: nat, p: nat, b: nat)
    requires InWindow(doc, a, p, b) && StringEnd(doc, p).1 <= b
    requires StringEnd(doc, p).0 || StringEnd(doc, p).1 < b
    ensures StringEnd(doc[a..b], p - a) == (true, StringEnd(doc, p).1 - a) && StringEnd(doc, p).0
    decreases b - p
  {
    hide StringEnd;
    StringEndUnfolds(doc, p);
    StringEndUnfolds(doc[a..b], p - a);
    if p < |doc| && doc[p] != QUOTE {
      StringInWindow(doc, a, if doc[p] != BACKSLASH then p + 1 else if p + 2 <= |doc| then p + 2 else |doc|, b);
    }
  }

  lemma StringEndUnfolds(doc: bytes, p: nat)
    requires p <= |doc|
    ensures StringEnd(doc, p) ==
            if p == |doc| then (false, p)
            else if doc[p] == BACKSLASH then StringEnd(doc, if p + 2 <= |doc| then p + 2 else |doc|)
            else if doc[p] == QUOTE then (true, p + 1)
            else StringEnd(doc, p + 1)
  {
  }

  lemma {:induction false} CStyleInWindow(doc: bytes, a: nat, p: nat, b: nat)
    requires InWindow(doc, a, p, b) && CStyleCommentEnd(doc, p).1 <= b
    requires CStyleCommentEnd(doc, p).0 || CStyleCommentEnd(doc, p).1 < b
    ensures CStyleCommentEnd(doc[a..b], p - a) == (true, CStyleCommentEnd(doc, p).1 - a) && CStyleCommentEnd(doc, p).0
    decreases b - p
  {
    if p < |doc| && !(doc[p] == STAR && CharAt(doc, p + 1) == SLASH) {
      CStyleInWindow(doc, a, p + 1, b);
    }
  }

  lemma {:induction false} CppStyleInWindow(doc: bytes, a: nat, p: nat, b: nat)
    requires InWindow(doc, a, p, b) && CppStyleCommentEnd(doc, p) <= b
    ensures CppStyleCommentEnd(doc[a..b], p - a) == CppStyleCommentEnd(doc, p) - a
    decreases b - p
  {
    if p < b {
      CharInWindow(doc, a, p + 1, b);
      if doc[p] != LINE_FEED && doc[p] != RETURN {
        CppStyleInWindow(doc, a, p + 1, b);
      }
    }
  }

  // --------------------------------------------------------------------------- Tokens

  function Shifted(t: Token, a: nat): Token
    requires a <= t.start <= t.end
  {
    Token(t.kind, t.start - a, t.end - a)
  }

  /** The token ends inside the window, before its end if it is no proper token. */
  predicate EndsInside(t: Token, b: nat) {
    t.end <= b && (t.kind in {EndOfStream, ErrorToken} ==> t.end < b)
  }

  lemma {:induction false} CommentInWindow(doc: bytes, a: nat, p: nat, b: nat)
    requires InWindow(doc, a, p, b) && CommentEnd(doc, p).1 <= b && (CommentEnd(doc, p).0 || CommentEnd(doc, p).1 < b)
    ensures CommentEnd(doc[a..b], p - a) == (CommentEnd(doc, p).0, CommentEnd(doc, p).1 - a)
  {
    if p < |doc| && doc[p] == STAR {
      CStyleInWindow(doc, a, p + 1, b);
    } else if p < |doc| && doc[p] == SLASH {
      CppStyleInWindow(doc, a, p + 1, b);
    }
  }

  lemma {:induction false} WordInWindow(doc: bytes, a: nat, s: nat, b: nat, rest: bytes, kind: TokenType)
    requires a <= s < b <= |doc| && EndsInside(WordToken(doc, s, rest, kind), b)
    ensures WordToken(doc[a..b], s - a, rest, kind) == Shifted(WordToken(doc, s, rest, kind), a)
  {
    if s + 1 + |rest| <= b {
      SliceInWindow(doc, a, s + 1, s + 1 + |rest|, b);
    }
  }

  lemma {:induction false} TokenInWindow(doc: bytes, a: nat, s: nat, b: nat)
    requires InWindow(doc, a, s, b) && EndsInside(TokenAt(doc, s), b)
    ensures TokenAt(doc[a..b], s - a) == Shifted(TokenAt(doc, s), a)
  {
    hide StringEnd, CommentEnd, NumberEnd, WordToken;
    if s < |doc| {
      var c := doc[s];
      assert doc[a..b][s - a] == c;
      if PunctuationOf(c).Some? {
      } else if c == QUOTE {
        StringInWindow(doc, a, s + 1, b);
      } else if c == SLASH {
        CommentInWindow(doc, a, s + 1, b);
      } else if IsDigit(c) || c == MINUS {
        NumberInWindow(doc, a, s + 1, b);
      } else if c == TRUE_TEXT[0] {
        WordInWindow(doc, a, s, b, TRUE_TEXT[1..], TrueToken);
      } else if c == FALSE_TEXT[0] {
        WordInWindow(doc, a, s, b, FALSE_TEXT[1..], FalseToken);
      } else if c == NULL_TEXT[0] {
        WordInWindow(doc, a, s, b, NULL_TEXT[1..], NullToken);
      }
    }
  }

  lemma {:induction false} NextInWindow(doc: bytes, a: nat, p: nat, b: nat)
    requires InWindow(doc, a, p, b) && EndsInside(NextToken(doc, p), b)
    ensures NextToken(doc[a..b], p - a) == Shifted(NextToken(doc, p), a)
  {
    hide TokenAt, SkipSpaces;
    SpacesInWindow(doc, a, p, b);
    TokenInWindow(doc, a, SkipSpaces(doc, p), b);
  }

  lemma {:induction false} SkippingInWindow(doc: bytes, a: nat, p: nat, b: nat)
    requires InWindow(doc, a, p, b) && EndsInside(NextSkippingComments(doc, p), b)
    ensures NextSkippingComments(doc[a..b], p - a) == Shifted(NextSkippingComments(doc, p), a)
    decreases b - p
  {
    hide NextToken;
    var t := NextToken(doc, p);
    NextInWindow(doc, a, p, b);
    if t.kind == CommentToken {
      SkippingInWindow(doc, a, t.end, b);
    }
  }

  /** The same source with only the window left of its document. */
  function Cut(s: Source, a: nat, b: nat): Source
    requires a <= b <= |s.doc|
  {
    s.(doc := s.doc[a..b])
  }

  lemma {:induction false} FirstInWindow(s: Source, a: nat, p: nat, b: nat)
    requires InWindow(s.doc, a, p, b) && EndsInside(FirstToken(s, p), b)
    ensures FirstToken(Cut(s, a, b), p - a) == Shifted(FirstToken(s, p), a)
  {
    if s.features.allowComments {
      SkippingInWindow(s.doc, a, p, b);
    } else {
      NextInWindow(s.doc, a, p, b);
    }
  }

  // --------------------------------------------------------------------------- Strings and scalars

  lemma {:induction false} HexInWindow(doc: bytes, a: nat, cur: nat, k: nat, acc: nat, b: nat)
    requires a <= cur && cur + k <= b <= |doc| && HexDigits(doc, cur, k, acc).CodePoint?
    ensures HexDigits(doc[a..b], cur - a, k, acc) == CodePoint(HexDigits(doc, cur, k, acc).cp, cur + k - a)
    decreases k
  {
    if k > 0 {
      HexInWindow(doc, a, cur + 1, k - 1, acc * 16 + HexValue(doc[cur]).value, b);
    }
  }

  lemma {:induction false} EscapeInWindow(doc: bytes, a: nat, cur: nat, end: nat, b: nat)
    requires a <= cur <= end <= b <= |doc| && UnicodeEscapeSequence(doc, cur, end).CodePoint?
    ensures UnicodeEscapeSequence(doc[a..b], cur - a, end - a) ==
            CodePoint(UnicodeEscapeSequence(doc, cur, end).cp, cur + 4 - a)
  {
    HexInWindow(doc, a, cur, 4, 0, b);
  }

  lemma {:induction false} CodePointInWindow(doc: bytes, a: nat, cur: nat, end: nat, b: nat)
    requires a <= cur <= end <= b <= |doc| && UnicodeCodePoint(doc, cur, end).CodePoint?
    ensures
      var r := UnicodeCodePoint(doc, cur, end);
      UnicodeCodePoint(doc[a..b], cur - a, end - a) == CodePoint(r.cp, r.next - a)
  {
    hide UnicodeEscapeSequence;
    EscapeInWindow(doc, a, cur, end, b);
    var first := UnicodeEscapeSequence(doc, cur, end);
    if 0xD800 <= first.cp <= 0xDBFF {
      EscapeInWindow(doc, a, first.next + 2, end, b);
    }
  }

  lemma {:induction false} PieceInWindow(doc: bytes, a: nat, cur: nat, end: nat, b: nat)
    requires a <= cur <= end <= b <= |doc| && !NextPiece(doc, cur, end).Broken?
    ensures
      var r := NextPiece(doc, cur, end);
      NextPiece(doc[a..b], cur - a, end - a) == if r.Piece? then Piece(r.s, r.next - a) else Finished
  {
    hide UnicodeCodePoint, CodePointToUtf8;
    if cur < end && doc[cur] == BACKSLASH && cur + 1 < end {
      if !SimpleEscape(doc[cur + 1]).Some? && doc[cur + 1] == LETTER_U {
        CodePointInWindow(doc, a, cur + 2, end, b);
      }
    }
  }

  lemma {:induction false} TextInWindow(doc: bytes, a: nat, cur: nat, end: nat, b: nat)
    requires a <= cur <= end <= b <= |doc| && DecodeText(doc, cur, end).Text?
    ensures DecodeText(doc[a..b], cur - a, end - a) == DecodeText(doc, cur, end)
    decreases end - cur
  {
    hide NextPiece;
    PieceInWindow(doc, a, cur, end, b);
    var r := NextPiece(doc, cur, end);
    if r.Piece? {
      TextInWindow(doc, a, r.next, end, b);
    }
  }

  lemma {:induction false} ScalarInWindow(s: Source, a: nat, t: Token, b: nat, depth: int, cur: Value, depth': int,
                                          cur': Value)
    requires a <= t.start <= t.end <= b <= |s.doc| && (t.kind == StringToken ==> t.start + 2 <= t.end)
    requires ParseScalar(s, t, depth, cur).ok
    ensures
      var r, r' := ParseScalar(s, t, depth, cur), ParseScalar(Cut(s, a, b), Shifted(t, a), depth', cur');
      r'.ok && r'.pos == r.pos - a && Strip(r'.value) == Strip(r.value)
  {
    hide DecodeText, DecodeSpec;
    SliceInWindow(s.doc, a, t.start, t.end, b);
    if t.kind == StringToken {
      TextInWindow(s.doc, a, t.start + 1, t.end - 1, b);
    }
  }

  // --------------------------------------------------------------------------- Steps of the containers

  lemma {:induction false} NameInWindow(s: Source, a: nat, p: nat, b: nat, name: bytes)
    requires InWindow(s.doc, a, p, b) && !MemberName(s, p, name).BadName? && MemberName(s, p, name).pos <= b
    ensures
      var r := MemberName(s, p, name);
      MemberName(Cut(s, a, b), p - a, name) == if r.NoMember? then NoMember(r.pos - a) else Named(r.key, r.pos - a)
  {
    hide DecodeText, NextSkippingComments, NextToken, RecoverTo;
    var t := NextSkippingComments(s.doc, p);
    SkippingInWindow(s.doc, a, p, b);
    if t.kind == StringToken {
      TextInWindow(s.doc, a, t.start + 1, t.end - 1, b);
      NextInWindow(s.doc, a, t.end, b);
    }
  }

  /** After a comment the reader may take an improper token for the separator; more must follow it then. */
  lemma {:induction false} MemberFollowInWindow(s: Source, a: nat, p: nat, b: nat)
    requires InWindow(s.doc, a, p, b)
    requires MemberFollow(s, p).Last? || MemberFollow(s, p).More?
    requires MemberFollow(s, p).pos <= b && (MemberFollow(s, p).More? ==> MemberFollow(s, p).pos < b)
    ensures
      var r := MemberFollow(s, p);
      MemberFollow(Cut(s, a, b), p - a) == if r.Last? then Last(r.pos - a) else More(r.pos - a)
  {
    hide NextSkippingComments, NextToken, RecoverTo;
    NotBeforeSkipping(s.doc, p);
    NextInWindow(s.doc, a, p, b);
    SkippingInWindow(s.doc, a, p, b);
  }

  lemma NotBeforeSkipping(doc: bytes, p: nat)
    requires p <= |doc|
    ensures NextToken(doc, p).end <= NextSkippingComments(doc, p).end
  {
  }

  lemma {:induction false} ElementFollowInWindow(s: Source, a: nat, p: nat, b: nat)
    requires InWindow(s.doc, a, p, b) && !ElementFollow(s, p).BadFollow? && ElementFollow(s, p).pos <= b
    ensures
      var r := ElementFollow(s, p);
      ElementFollow(Cut(s, a, b), p - a) == if r.Last? then Last(r.pos - a) else More(r.pos - a)
  {
    hide NextSkippingComments, RecoverTo;
    SkippingInWindow(s.doc, a, p, b);
  }

  // --------------------------------------------------------------------------- Values

  lemma {:induction false} SetChildStrips(v: Value, v': Value, key: Key, child: Value, child': Value)
    requires Strip(v) == Strip(v') && (v.data.Array? || v.data.Object?) && Strip(child) == Strip(child')
    ensures Strip(SetChild(v, key, child)) == Strip(SetChild(v', key, child'))
    ensures SetChild(v, key, child).data.Array? == v.data.Array? &&
            SetChild(v, key, child).data.Object? == v.data.Object?
  {
    hide Set;
    assert Strip(v).data == Strip(v').data;
    StripSet(EntriesOf(v), key, child);
    StripSet(EntriesOf(v'), key, child');
  }

  /** `r'` is what `r` becomes when everything before `a` is cut off. */
  ghost predicate SameInWindow(r: Outcome, r': Outcome, a: nat) {
    r.Returned? && r'.Returned? && r.ok && r'.ok && r'.pos == r.pos - a && Strip(r'.value) == Strip(r.value)
  }

  predicate SucceedsBy(r: Outcome, b: nat) {
    r.Returned? && r.ok && r.pos <= b
  }

  /**
   A value read successfully inside a window, at whatever depth and over whatever old value, is read
   in the cut document at any smaller depth, with the same payload.
   */
  lemma {:induction false} ValueInWindow(s: Source, a: nat, p: nat, b: nat, depth: int, cur: Value, depth': int,
                                         cur': Value)
    requires InWindow(s.doc, a, p, b) && depth' <= depth && SucceedsBy(ParseValue(s, p, depth, cur), b)
    ensures SameInWindow(ParseValue(s, p, depth, cur), ParseValue(Cut(s, a, b), p - a, depth', cur'), a)
    decreases |s.doc| - p, 0
  {
    hide FirstToken, ParseMembers, ParseArray, NumberData, DecodeText;
    var t := FirstToken(s, p);
    FirstInWindow(s, a, p, b);
    if t.kind == ObjectBegin {
      MembersInWindow(s, a, t.end, b, depth + 1, Value(Object(Nil), t.start, cur.limit), [],
                      depth' + 1, Value(Object(Nil), t.start - a, cur'.limit));
    } else if t.kind == ArrayBegin {
      ArrayInWindow(s, a, t.end, b, depth + 1, Value(Array(Nil), t.start, cur.limit),
                    depth' + 1, Value(Array(Nil), t.start - a, cur'.limit));
    } else {
      ScalarInWindow(s, a, t, b, depth, cur, depth', cur');
    }
  }

  lemma {:induction false} MembersInWindow(s: Source, a: nat, p: nat, b: nat, depth: int, obj: Value, name: bytes,
                                           depth': int, obj': Value)
    requires InWindow(s.doc, a, p, b) && depth' <= depth && SucceedsBy(ParseMembers(s, p, depth, obj, name), b)
    requires obj.data.Object? && Strip(obj) == Strip(obj')
    ensures SameInWindow(ParseMembers(s, p, depth, obj, name), ParseMembers(Cut(s, a, b), p - a, depth', obj', name), a)
    decreases |s.doc| - p, 1
  {
    hide MemberName, ParseValue, MemberFollow, RecoverTo;
    var step := MemberName(s, p, name);
    NameInWindow(s, a, p, b, name);
    if step.Named? {
      var cur, cur' := Get(EntriesOf(obj), Name(step.key)), Get(EntriesOf(obj'), Name(step.key));
      var child := ParseValue(s, step.pos, depth, cur);
      ValueInWindow(s, a, step.pos, b, depth, cur, depth', cur');
      var child' := ParseValue(Cut(s, a, b), step.pos - a, depth', cur');
      SetChildStrips(obj, obj', Name(step.key), child.value, child'.value);
      AfterMemberInWindow(s, a, b, child, obj, step.key, child', obj');
    }
  }

  lemma {:induction false} AfterMemberInWindow(s: Source, a: nat, b: nat, child: Outcome, obj: Value, key: bytes,
                                               child': Outcome, obj': Value)
    requires child.Returned? && child.ok && child.errors == [] && InWindow(s.doc, a, child.pos, b)
    requires child'.Returned? && child'.errors == [] && SameInWindow(child, child', a) && child'.depth <= child.depth
    requires obj.data.Object? && Strip(SetChild(obj, Name(key), child.value)) ==
             Strip(SetChild(obj', Name(key), child'.value))
    requires SucceedsBy(AfterMember(s, child, obj, key), b)
    ensures SameInWindow(AfterMember(s, child, obj, key), AfterMember(Cut(s, a, b), child', obj', key), a)
    decreases |s.doc| - child.pos, 2
  {
    hide MemberFollow, ParseMembers, RecoverTo, Set;
    var step := MemberFollow(s, child.pos);
    if step.More? {
      var next := SetChild(obj, Name(key), child.value);
      MembersAdvance(s, step.pos, child.depth, next, key);
      MemberFollowInWindow(s, a, child.pos, b);
      MembersInWindow(s, a, step.pos, b, child.depth, next, key, child'.depth, SetChild(obj', Name(key), child'.value));
    } else {
      MemberFollowInWindow(s, a, child.pos, b);
    }
  }

  lemma {:induction false} MembersAdvance(s: Source, p: nat, depth: int, obj: Value, name: bytes)
    requires p <= |s.doc|
    ensures var r := ParseMembers(s, p, depth, obj, name); r.Returned? && r.ok ==> p < r.pos
  {
    hide MemberName, ParseValue;
  }

  lemma {:induction false} ArrayInWindow(s: Source, a: nat, p: nat, b: nat, depth: int, arr: Value, depth': int,
                                         arr': Value)
    requires InWindow(s.doc, a, p, b) && depth' <= depth && SucceedsBy(ParseArray(s, p, depth, arr), b)
    requires arr.data.Array? && Strip(arr) == Strip(arr')
    ensures SameInWindow(ParseArray(s, p, depth, arr), ParseArray(Cut(s, a, b), p - a, depth', arr'), a)
    decreases |s.doc| - p, 2
  {
    hide ParseElements, SkipSpaces;
    var q := SkipSpaces(s.doc, p);
    SpacesInWindow(s.doc, a, p, b);
    CharInWindow(s.doc, a, q, b);
    if CharAt(s.doc, q) != RIGHT_BRACKET {
      ElementsInWindow(s, a, q, b, depth, arr, 0, depth', arr');
    }
  }

  lemma {:induction false} ElementsInWindow(s: Source, a: nat, p: nat, b: nat, depth: int, arr: Value, index: nat,
                                            depth': int, arr': Value)
    requires InWindow(s.doc, a, p, b) && depth' <= depth && SucceedsBy(ParseElements(s, p, depth, arr, index), b)
    requires arr.data.Array? && Strip(arr) == Strip(arr')
    ensures SameInWindow(ParseElements(s, p, depth, arr, index),
                         ParseElements(Cut(s, a, b), p - a, depth', arr', index), a)
    decreases |s.doc| - p, 1
  {
    hide ParseValue, ElementFollow, RecoverTo, Set;
    var cur, cur' := Get(EntriesOf(arr), Index(index)), Get(EntriesOf(arr'), Index(index));
    var child := ParseValue(s, p, depth, cur);
    ValueInWindow(s, a, p, b, depth, cur, depth', cur');
    var child' := ParseValue(Cut(s, a, b), p - a, depth', cur');
    SetChildStrips(arr, arr', Index(index), child.value, child'.value);
    ElementFollowInWindow(s, a, child.pos, b);
    var step := ElementFollow(s, child.pos);
    if step.More? {
      ElementsInWindow(s, a, step.pos, b, depth, SetChild(arr, Index(index), child.value), index + 1,
                       depth', SetChild(arr', Index(index), child'.value));
    }
  }
}
