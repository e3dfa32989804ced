/** The reader's tokens are the lexical elements of the grammar, in both directions. */
module JsonLexemes {
  import opened Bytes
  import opened JsonString
  import opened JsonValue
  import opened JsonLexer
  import opened JsonParser
  import opened JsonGrammar

  // --------------------------------------------------------------------------- White space

  lemma {:induction false} BlanksSkipped(doc: bytes, p: nat, q: nat)
    requires Blanks(doc, p, q)
    ensures SkipSpaces(doc, p) == SkipSpaces(doc, q)
    decreases q - p
  {
    if p < q {
      BlanksSkipped(doc, p + 1, q);
    }
  }

  lemma {:induction false} SkippedBlanks(doc: bytes, p: nat)
    requires p <= |doc|
    ensures Blanks(doc, p, SkipSpaces(doc, p))
    decreases |doc| - p
  {
    if p < |doc| && IsSpace(doc[p]) {
      SkippedBlanks(doc, p + 1);
    }
  }

  lemma {:induction false} GapJoin(doc: bytes, p: nat, m: nat, q: nat)
    requires p <= m <= q && Gap(doc, p, m) && Gap(doc, m, q)
    ensures Gap(doc, p, q)
    decreases m - p
  {
    hide GapPiece;
    if p < m {
      var n :| p < n <= m && GapPiece(doc, p, n) && Gap(doc, n, m);
      GapJoin(doc, n, m, q);
    }
  }

  lemma {:induction false} BlanksAreGap(doc: bytes, p: nat, q: nat)
    requires Blanks(doc, p, q)
    ensures Gap(doc, p, q)
    decreases q - p
  {
    if p < q {
      BlanksAreGap(doc, p + 1, q);
      assert GapPiece(doc, p, p + 1);
    }
  }

  lemma {:induction false} GapInside(doc: bytes, p: nat, q: nat)
    requires Gap(doc, p, q)
    ensures p <= q <= |doc|
    decreases q - p
  {
    hide GapPiece;
    if p < q {
      var m :| p < m <= q && GapPiece(doc, p, m) && Gap(doc, m, q);
      GapInside(doc, m, q);
    }
  }

  // --------------------------------------------------------------------------- Comments

  lemma {:induction false} BlockEnds(doc: bytes, p: nat, i: nat, q: nat)
    requires BlockComment(doc, p, q) && p + 2 <= i <= q - 2
    ensures CStyleCommentEnd(doc, i) == (true, q)
    decreases q - i
  {
    if i < q - 2 {
      BlockEnds(doc, p, i + 1, q);
    }
  }

  lemma {:induction false} BlockToken(doc: bytes, p: nat, q: nat)
    requires BlockComment(doc, p, q)
    ensures TokenAt(doc, p) == Token(CommentToken, p, q)
  {
    hide CStyleCommentEnd;
    BlockEnds(doc, p, p + 2, q);
  }

  lemma {:induction false} LineEnds(doc: bytes, p: nat, i: nat, q: nat)
    requires LineComment(doc, p, q) && p + 2 <= i <= q
    ensures CppStyleCommentEnd(doc, i) >= q && Blanks(doc, q, CppStyleCommentEnd(doc, i))
    decreases q - i
  {
    if i < q {
      LineEnds(doc, p, i + 1, q);
    }
  }

  /** The end of the line belongs to the token. */
  lemma {:induction false} LineToken(doc: bytes, p: nat, q: nat)
    requires LineComment(doc, p, q)
    ensures
      var t := TokenAt(doc, p);
      t.kind == CommentToken && q <= t.end && Blanks(doc, q, t.end)
  {
    hide CppStyleCommentEnd;
    LineEnds(doc, p, p + 2, q);
  }

  lemma {:induction false} BlockFound(doc: bytes, p: nat, i: nat)
    requires p + 2 <= i <= |doc| && doc[p] == 47 && doc[p + 1] == 42 && CStyleCommentEnd(doc, i).0
    requires forall j :: p + 2 <= j < i ==> !(doc[j] == 42 && j + 1 < |doc| && doc[j + 1] == 47)
    ensures BlockComment(doc, p, CStyleCommentEnd(doc, i).1)
    decreases |doc| - i
  {
    if !(doc[i] == STAR && CharAt(doc, i + 1) == SLASH) {
      BlockFound(doc, p, i + 1);
    }
  }

  lemma {:induction false} LineFound(doc: bytes, p: nat, i: nat) returns (q: nat)
    requires p + 2 <= i <= |doc| && doc[p] == 47 && doc[p + 1] == 47
    requires forall j :: p + 2 <= j < i ==> doc[j] != 10 && doc[j] != 13
    ensures LineComment(doc, p, q) && q <= CppStyleCommentEnd(doc, i) && Blanks(doc, q, CppStyleCommentEnd(doc, i))
    decreases |doc| - i
  {
    if i == |doc| || doc[i] == LINE_FEED || doc[i] == RETURN {
      q := i;
    } else {
      q := LineFound(doc, p, i + 1);
    }
  }

  /** A comment token and what it covers. */
  lemma {:induction false} CommentIsGap(doc: bytes, p: nat)
    requires p < |doc| && TokenAt(doc, p).kind == CommentToken
    ensures Gap(doc, p, TokenAt(doc, p).end)
  {
    hide CStyleCommentEnd, CppStyleCommentEnd, StringEnd, BlockComment, LineComment;
    var end := TokenAt(doc, p).end;
    NotAComment(doc, p);
    if doc[p + 1] == STAR {
      BlockFound(doc, p, p + 2);
      assert GapPiece(doc, p, end) && Gap(doc, end, end);
    } else {
      var q := LineFound(doc, p, p + 2);
      BlanksAreGap(doc, q, end);
      LineIsLong(doc, p, q);
      assert GapPiece(doc, p, q);
    }
  }

  lemma LineIsLong(doc: bytes, p: nat, q: nat)
    requires LineComment(doc, p, q)
    ensures p < q
  {
  }

  lemma NotAComment(doc: bytes, p: nat)
    requires p < |doc| && TokenAt(doc, p).kind == CommentToken
    ensures doc[p] == SLASH && p + 1 < |doc| && (doc[p + 1] == STAR || doc[p + 1] == SLASH)
  {
  }

  /** Reading on from anywhere inside a gap finds the same token. */
  lemma {:induction false} GapSkipped(doc: bytes, p: nat, q: nat)
    requires Gap(doc, p, q) && p <= |doc| && q <= |doc|
    ensures NextSkippingComments(doc, p) == NextSkippingComments(doc, q)
    decreases q - p
  {
    hide BlockComment, LineComment, TokenAt;
    if p < q {
      var m :| p < m <= q && GapPiece(doc, p, m) && Gap(doc, m, q);
      GapInside(doc, m, q);
      GapSkipped(doc, m, q);
      PieceSkipped(doc, p, m);
    }
  }

  lemma {:induction false} PieceSkipped(doc: bytes, p: nat, m: nat)
    requires p < m <= |doc| && GapPiece(doc, p, m)
    ensures NextSkippingComments(doc, p) == NextSkippingComments(doc, m)
  {
    hide BlockComment, LineComment, TokenAt;
    if BlockComment(doc, p, m) {
      SlashIsNoSpace(doc, p, m);
      BlockToken(doc, p, m);
    } else if LineComment(doc, p, m) {
      SlashIsNoSpace(doc, p, m);
      LineToken(doc, p, m);
      BlanksSkipped(doc, m, TokenAt(doc, p).end);
    } else {
      BlanksSkipped(doc, p, m);
    }
  }

  lemma SlashIsNoSpace(doc: bytes, p: nat, m: nat)
    requires BlockComment(doc, p, m) || LineComment(doc, p, m)
    ensures p < |doc| && SkipSpaces(doc, p) == p
  {
  }

  /** The token after a gap. */
  lemma {:induction false} TokenAfterGap(doc: bytes, p: nat, q: nat)
    requires Gap(doc, p, q) && q < |doc| && !IsBlank(doc[q]) && doc[q] != 47
    ensures p <= |doc| && NextSkippingComments(doc, p) == TokenAt(doc, q)
  {
    hide Gap, NumberEnd, StringEnd;
    GapInside(doc, p, q);
    GapSkipped(doc, p, q);
    assert SkipSpaces(doc, q) == q;
  }

  lemma {:induction false} TokenAfterBlanks(doc: bytes, p: nat, q: nat)
    requires Blanks(doc, p, q) && q < |doc| && !IsBlank(doc[q])
    ensures NextToken(doc, p) == TokenAt(doc, q) && SkipSpaces(doc, p) == q
  {
    hide TokenAt;
    BlanksSkipped(doc, p, q);
    assert SkipSpaces(doc, q) == q;
  }

  lemma {:induction false} TokenAfterLead(s: Source, p: nat, q: nat)
    requires Lead(s, p, q) && q < |s.doc| && !IsBlank(s.doc[q]) && s.doc[q] != 47
    ensures p <= |s.doc| && FirstToken(s, p) == TokenAt(s.doc, q)
  {
    hide Gap, Blanks, TokenAt;
    if s.features.allowComments {
      TokenAfterGap(s.doc, p, q);
    } else {
      assert p <= |s.doc| by {
        assert Blanks(s.doc, p, q) ==> p <= |s.doc| by {
          BlanksInside(s.doc, p, q);
        }
      }
      TokenAfterBlanks(s.doc, p, q);
    }
  }

  lemma BlanksInside(doc: bytes, p: nat, q: nat)
    ensures Blanks(doc, p, q) ==> p <= q <= |doc|
  {
  }

  /** Between a position and the next token that is no comment lies a gap. */
  lemma {:induction false} GapBeforeToken(doc: bytes, p: nat)
    requires p <= |doc|
    ensures var t := NextSkippingComments(doc, p); Gap(doc, p, t.start) && t == TokenAt(doc, t.start)
    decreases |doc| - p
  {
    hide TokenAt, Gap;
    var t := NextToken(doc, p);
    SkippedBlanks(doc, p);
    BlanksAreGap(doc, p, t.start);
    if t.kind == CommentToken {
      CommentIsGap(doc, t.start);
      GapBeforeToken(doc, t.end);
      GapJoin(doc, p, t.start, t.end);
      GapJoin(doc, p, t.end, NextSkippingComments(doc, t.end).start);
    }
  }

  lemma {:induction false} LeadBeforeToken(s: Source, p: nat)
    requires p <= |s.doc|
    ensures var t := FirstToken(s, p); Lead(s, p, t.start) && t == TokenAt(s.doc, t.start)
  {
    hide TokenAt, Gap, NextSkippingComments;
    SkippedBlanks(s.doc, p);
    GapBeforeToken(s.doc, p);
  }

  // --------------------------------------------------------------------------- Numbers

  lemma {:induction false} DigitsRun(doc: bytes, p: nat, q: nat)
    requires p <= |doc|
    ensures Digits(doc, p, DigitsEnd(doc, p))
    ensures Digits(doc, p, q) ==> q <= DigitsEnd(doc, p)
    ensures p <= q < DigitsEnd(doc, p) ==> 48 <= doc[q] <= 57
    decreases |doc| - p
  {
    if p < |doc| && IsDigit(doc[p]) {
      DigitsRun(doc, p + 1, q);
    }
  }

  lemma {:induction false} FractionRun(doc: bytes, p: nat, q: nat)
    requires p <= |doc|
    ensures Fraction(doc, p, FractionEnd(doc, p))
    ensures Fraction(doc, p, q) ==> q <= FractionEnd(doc, p)
    ensures p <= q < FractionEnd(doc, p) ==> doc[q] == 46 || 48 <= doc[q] <= 57
  {
    hide DigitsEnd;
    if p < |doc| && doc[p] == 46 {
      DigitsRun(doc, p + 1, q);
    }
  }

  lemma {:induction false} ExponentRun(doc: bytes, p: nat, q: nat)
    requires p <= |doc|
    ensures Exponent(doc, p, ExponentEnd(doc, p))
    ensures Exponent(doc, p, q) ==> q <= ExponentEnd(doc, p)
  {
    hide DigitsEnd;
    if p < |doc| && (doc[p] == 101 || doc[p] == 69) {
      DigitsRun(doc, p + 1, q);
      if p + 1 < |doc| && (doc[p + 1] == 43 || doc[p + 1] == 45) {
        DigitsRun(doc, p + 2, q);
      }
    }
  }

  /** The scan stops where the longest number ends. */
  lemma {:induction false} NumberRun(doc: bytes, p: nat)
    requires p < |doc| && (doc[p] == 45 || 48 <= doc[p] <= 57)
    ensures LongestNumber(doc, p, NumberEnd(doc, p + 1))
  {
    hide DigitsEnd, FractionEnd, ExponentEnd, Digits, Fraction, Exponent;
    var f := DigitsEnd(doc, p + 1);
    var x := FractionEnd(doc, f);
    DigitsRun(doc, p + 1, f);
    FractionRun(doc, f, x);
    ExponentRun(doc, x, NumberEnd(doc, p + 1));
    assert NumberText(doc, p, NumberEnd(doc, p + 1));
    forall r: nat | NumberText(doc, p, r) ensures r <= NumberEnd(doc, p + 1) {
      NoLongerNumber(doc, p, r);
    }
  }

  lemma {:induction false} NoLongerNumber(doc: bytes, p: nat, r: nat)
    requires NumberText(doc, p, r)
    ensures r <= NumberEnd(doc, p + 1)
  {
    hide DigitsEnd, FractionEnd, ExponentEnd, Fraction, Exponent;
    var f: nat, x: nat :| f <= x <= r && Digits(doc, p + 1, f) && Fraction(doc, f, x) && Exponent(doc, x, r);
    var f' := DigitsEnd(doc, p + 1);
    DigitsRun(doc, p + 1, f);
    if f < f' {
      NothingAtDigit(doc, f, x);
      NothingAtDigit(doc, x, r);
    } else {
      FractionRun(doc, f, x);
      if x < FractionEnd(doc, f) {
        NothingAtDigit(doc, x, r);
      } else {
        ExponentRun(doc, x, r);
      }
    }
  }

  /** Neither an exponent begins at a digit or dot, nor a fraction at a digit. */
  lemma NothingAtDigit(doc: bytes, p: nat, q: nat)
    requires p < |doc| && (doc[p] == 46 || 48 <= doc[p] <= 57)
    ensures Exponent(doc, p, q) ==> p == q
    ensures 48 <= doc[p] <= 57 && Fraction(doc, p, q) ==> p == q
  {
  }

  lemma {:induction false} NumberTokenAt(doc: bytes, p: nat, q: nat)
    requires LongestNumber(doc, p, q)
    ensures TokenAt(doc, p) == Token(NumberToken, p, q)
  {
    hide NumberEnd, StringEnd;
    NumberRun(doc, p);
    assert NumberText(doc, p, NumberEnd(doc, p + 1));
  }

  lemma {:induction false} NumberCharacters(doc: bytes, p: nat, q: nat)
    requires NumberText(doc, p, q)
    ensures forall i :: p <= i < q ==> NumberCharacter(doc[i])
  {
    var f: nat, x: nat :| f <= x <= q && Digits(doc, p + 1, f) && Fraction(doc, f, x) && Exponent(doc, x, q);
    forall i | p <= i < q ensures NumberCharacter(doc[i]) {
      if i < f {
      } else if i < x {
        assert i == f || 48 <= doc[i] <= 57;
      } else {
        assert i <= x + 1 || 48 <= doc[i] <= 57;
      }
    }
  }

  /** A number text that no number character follows is as long as it can be. */
  lemma {:induction false} StoppedIsLongest(doc: bytes, p: nat, q: nat)
    requires NumberText(doc, p, q) && (q < |doc| ==> !NumberCharacter(doc[q]))
    ensures LongestNumber(doc, p, q)
  {
    hide NumberText;
    forall r: nat | NumberText(doc, p, r) ensures r <= q {
      NumberCharacters(doc, p, r);
      NumberInside(doc, p, q);
      NumberInside(doc, p, r);
    }
  }

  lemma NumberInside(doc: bytes, p: nat, q: nat)
    requires NumberText(doc, p, q)
    ensures p < q <= |doc|
  {
  }

  /**
   A minus or none, digits, perhaps a dot and digits, perhaps an exponent: such a text, with the end or
   no number character after it, is one token.
   */
  lemma {:induction false} NumberIsOneToken(doc: bytes, p: nat, q: nat)
    requires PlainNumber(doc, p, q) && (q < |doc| ==> !NumberCharacter(doc[q]))
    ensures p < q <= |doc| && NextToken(doc, p) == Token(NumberToken, p, q)
  {
    hide TokenAt, Exponent, LongestNumber;
    var i: nat, f: nat, x: nat :|
      && p <= i <= p + 1 && i < f <= x <= q <= |doc|
      && (i == p + 1 ==> doc[p] == 45) && Digits(doc, i, f)
      && Fraction(doc, f, x) && x != f + 1 && Exponent(doc, x, q) && (x < q ==> 48 <= doc[q - 1] <= 57);
    assert Digits(doc, p + 1, f);
    assert NumberText(doc, p, q);
    StoppedIsLongest(doc, p, q);
    NumberTokenAt(doc, p, q);
    assert SkipSpaces(doc, p) == p;
  }

  // --------------------------------------------------------------------------- Other tokens

  lemma {:induction false} LiteralToken(doc: bytes, p: nat, q: nat, t: bytes)
    requires Literal(doc, p, q, t)
    ensures TokenAt(doc, p) == Token(StringToken, p, q) && DecodeText(doc, p + 1, q - 1) == Text(t)
  {
    hide PiecesAt, StringEnd, DecodeText;
    LiteralDecodes(doc, p + 1, q - 1, t);
  }

  lemma {:induction false} LiteralRead(doc: bytes, p: nat)
    requires p < |doc| && TokenAt(doc, p).kind == StringToken
    requires DecodeText(doc, p + 1, TokenAt(doc, p).end - 1).Text?
    ensures Literal(doc, p, TokenAt(doc, p).end, DecodeText(doc, p + 1, TokenAt(doc, p).end - 1).s)
  {
    hide PiecesAt, StringEnd, DecodeText, CommentEnd;
    var q := TokenAt(doc, p).end;
    StringTokenBegins(doc, p);
    DecodedLiteral(doc, p + 1, q - 1);
  }

  lemma StringTokenBegins(doc: bytes, p: nat)
    requires p < |doc| && TokenAt(doc, p).kind == StringToken
    ensures doc[p] == 34 && StringEnd(doc, p + 1) == (true, TokenAt(doc, p).end)
    ensures p + 2 <= TokenAt(doc, p).end && doc[TokenAt(doc, p).end - 1] == 34
  {
  }

  lemma {:induction false} NumberRead(doc: bytes, p: nat)
    requires p < |doc| && TokenAt(doc, p).kind == NumberToken
    ensures LongestNumber(doc, p, TokenAt(doc, p).end)
  {
    hide NumberEnd, StringEnd, CommentEnd, LongestNumber;
    NumberRun(doc, p);
  }

  const NULL_BYTES: bytes := [110, 117, 108, 108]
  const TRUE_BYTES: bytes := [116, 114, 117, 101]
  const FALSE_BYTES: bytes := [102, 97, 108, 115, 101]

  /** The three names. */
  lemma {:induction false} WordTokens(doc: bytes, p: nat, q: nat)
    ensures Word(doc, p, q, NULL_BYTES) ==> TokenAt(doc, p) == Token(NullToken, p, q)
    ensures Word(doc, p, q, TRUE_BYTES) ==> TokenAt(doc, p) == Token(TrueToken, p, q)
    ensures Word(doc, p, q, FALSE_BYTES) ==> TokenAt(doc, p) == Token(FalseToken, p, q)
  {
    hide StringEnd, CommentEnd, NumberEnd;
    if Word(doc, p, q, NULL_BYTES) {
      WordHead(doc, p, NULL_BYTES);
    } else if Word(doc, p, q, TRUE_BYTES) {
      WordHead(doc, p, TRUE_BYTES);
    } else if Word(doc, p, q, FALSE_BYTES) {
      WordHead(doc, p, FALSE_BYTES);
    }
  }

  lemma {:induction false} WordHead(doc: bytes, p: nat, word: bytes)
    requires word != [] && At(doc, p, word)
    ensures p < |doc| && doc[p] == word[0] && At(doc, p + 1, word[1..])
  {
    assert word == [word[0]] + word[1..];
    AtSplit(doc, p, [word[0]], word[1..]);
    AtIndex(doc, p, word, 0);
  }

  lemma {:induction false} WordJoined(doc: bytes, p: nat, word: bytes)
    requires word != [] && p < |doc| && doc[p] == word[0] && At(doc, p + 1, word[1..])
    ensures At(doc, p, word)
  {
    assert doc[p..p + |word|] == [doc[p]] + doc[p + 1..p + 1 + |word[1..]|];
  }

  lemma {:induction false} WordsRead(doc: bytes, p: nat)
    requires p < |doc|
    ensures
      var t := TokenAt(doc, p);
      && (t.kind == NullToken ==> Word(doc, p, t.end, NULL_BYTES))
      && (t.kind == TrueToken ==> Word(doc, p, t.end, TRUE_BYTES))
      && (t.kind == FalseToken ==> Word(doc, p, t.end, FALSE_BYTES))
  {
    hide StringEnd, CommentEnd, NumberEnd;
    var t := TokenAt(doc, p);
    if t.kind == NullToken {
      WordJoined(doc, p, NULL_BYTES);
    } else if t.kind == TrueToken {
      WordJoined(doc, p, TRUE_BYTES);
    } else if t.kind == FalseToken {
      WordJoined(doc, p, FALSE_BYTES);
    }
  }

  /** Punctuation, byte by byte. */
  lemma PunctuationTokens(doc: bytes, p: nat)
    requires p < |doc|
    ensures
      var t := TokenAt(doc, p);
      && (doc[p] == 123 <==> t.kind == ObjectBegin) && (doc[p] == 125 <==> t.kind == ObjectEnd)
      && (doc[p] == 91 <==> t.kind == ArrayBegin) && (doc[p] == 93 <==> t.kind == ArrayEnd)
      && (doc[p] == 44 <==> t.kind == ArraySeparator) && (doc[p] == 58 <==> t.kind == MemberSeparator)
      && (doc[p] in {123, 125, 91, 93, 44, 58} ==> t.end == p + 1)
  {
  }
}
