/**
 A tree as a list of token texts, and texts that spell such a list with white space between the
 tokens. Spelling is closed under concatenation, which is how the styled writers build their output.
 */
module JsonTokens {
  import opened Bytes
  import opened JsonNumber
  import opened JsonString
  import opened JsonValue
  import opened JsonLexer
  import opened JsonParser
  import opened JsonGrammar
  import opened JsonLexemes
  import opened JsonFastWriter
  import opened JsonPrintable

  // --------------------------------------------------------------------------- Tokens of a tree

  function ScalarTokens(d: Data, o: Options): seq<bytes> {
    if ScalarText(d, o) == [] then [] else [ScalarText(d, o)]
  }

  function Tokens(w: Value, o: Options): seq<bytes> {
    match w.data
    case Array(m) => [[LEFT_BRACKET]] + ElementTokens(m, o) + [[RIGHT_BRACKET]]
    case Object(m) => [[LEFT_BRACE]] + MemberTokens(m, o) + [[RIGHT_BRACE]]
    case d => ScalarTokens(d, o)
  }

  function CommaTokens(more: bool): seq<bytes> {
    if more then [[COMMA]] else []
  }

  function ElementTokens(m: Entries, o: Options): seq<bytes> {
    match m
    case Nil => []
    case Cons(_, v, rest) => Tokens(v, o) + (CommaTokens(rest.Cons?) + ElementTokens(rest, o))
  }

  function MemberTokens(m: Entries, o: Options): seq<bytes> {
    match m
    case Nil => []
    case Cons(k, v, rest) =>
      [Quoted(NameOf(k)), [COLON]] + (Tokens(v, o) + (CommaTokens(rest.Cons?) + MemberTokens(rest, o)))
  }

  function Concat(toks: seq<bytes>): bytes {
    if toks == [] then [] else toks[0] + Concat(toks[1..])
  }

  // --------------------------------------------------------------------------- Spelling

  /** From `p` to the end, `doc` holds the tokens in order with white space before, between and after. */
  predicate SpellsFrom(toks: seq<bytes>, doc: bytes, p: nat)
    requires p <= |doc|
    decreases |toks|
  {
    var q := SkipSpaces(doc, p);
    if toks == [] then q == |doc| else toks[0] != [] && At(doc, q, toks[0]) && SpellsFrom(toks[1..], doc, q + |toks[0]|)
  }

  predicate Spells(toks: seq<bytes>, text: bytes) {
    SpellsFrom(toks, text, 0)
  }

  predicate AllSpaces(t: bytes) {
    forall i :: 0 <= i < |t| ==> IsSpace(t[i])
  }

  lemma {:induction false} SkipAll(t: bytes, p: nat)
    requires p <= |t| && forall i :: p <= i < |t| ==> IsSpace(t[i])
    ensures SkipSpaces(t, p) == |t|
    decreases |t| - p
  {
    if p < |t| {
      SkipAll(t, p + 1);
    }
  }

  lemma {:induction false} SpacesSpell(t: bytes)
    requires AllSpaces(t)
    ensures Spells([], t)
  {
    SkipAll(t, 0);
  }

  lemma {:induction false} TokenSpells(x: bytes)
    requires x != [] && !IsSpace(x[0])
    ensures Spells([x], x)
  {
    assert SkipSpaces(x, 0) == 0 && SkipSpaces(x, |x|) == |x|;
    assert SpellsFrom([], x, |x|);
  }

  lemma {:induction false} SkipPrefixed(s: bytes, t: bytes, p: nat)
    requires p <= |t|
    ensures SkipSpaces(s + t, |s| + p) == |s| + SkipSpaces(t, p)
    decreases |t| - p
  {
    assert p < |t| ==> (s + t)[|s| + p] == t[p];
    if p < |t| && IsSpace(t[p]) {
      SkipPrefixed(s, t, p + 1);
    }
  }

  /** Skipping inside `s` either stops inside or runs on into `t`. */
  lemma {:induction false} SkipAppended(s: bytes, t: bytes, p: nat)
    requires p <= |s|
    ensures SkipSpaces(s, p) < |s| ==> SkipSpaces(s + t, p) == SkipSpaces(s, p)
    ensures SkipSpaces(s, p) == |s| ==> SkipSpaces(s + t, p) == |s| + SkipSpaces(t, 0)
    decreases |s| - p
  {
    if p < |s| {
      assert (s + t)[p] == s[p];
      if IsSpace(s[p]) {
        SkipAppended(s, t, p + 1);
      }
    } else {
      SkipPrefixed(s, t, 0);
    }
  }

  lemma {:induction false} SpellsPrefixed(toks: seq<bytes>, s: bytes, t: bytes, p: nat)
    requires p <= |t| && SpellsFrom(toks, t, p)
    ensures SpellsFrom(toks, s + t, |s| + p)
    decreases |toks|
  {
    SkipPrefixed(s, t, p);
    if toks != [] {
      var q := SkipSpaces(t, p);
      AtPrefixed(s, t, q, toks[0]);
      SpellsPrefixed(toks[1..], s, t, q + |toks[0]|);
    }
  }

  lemma {:induction false} AtAppended(s: bytes, t: bytes, q: nat, x: bytes)
    requires At(s, q, x)
    ensures At(s + t, q, x)
  {
    assert (s + t)[q..q + |x|] == s[q..q + |x|];
  }

  lemma {:induction false} AtPrefixed(s: bytes, t: bytes, q: nat, x: bytes)
    requires At(t, q, x)
    ensures At(s + t, |s| + q, x)
  {
    assert (s + t)[|s| + q..|s| + q + |x|] == t[q..q + |x|];
  }

  lemma SameStart(toks: seq<bytes>, doc: bytes, p: nat, p': nat)
    requires p <= |doc| && p' <= |doc| && SkipSpaces(doc, p) == SkipSpaces(doc, p') && SpellsFrom(toks, doc, p)
    ensures SpellsFrom(toks, doc, p')
  {
  }

  lemma {:induction false} SpellsAppended(a: seq<bytes>, s: bytes, p: nat, b: seq<bytes>, t: bytes)
    requires p <= |s| && SpellsFrom(a, s, p) && Spells(b, t)
    ensures SpellsFrom(a + b, s + t, p)
    decreases |a|
  {
    hide SkipSpaces, At;
    SkipAppended(s, t, p);
    var q := SkipSpaces(s, p);
    if a == [] {
      assert a + b == b;
      SpellsPrefixed(b, s, t, 0);
      SkipPrefixed(s, t, 0);
      SameStart(b, s + t, |s|, p);
    } else {
      assert q < |s| by {
        NonEmptyAt(s, q, a[0]);
      }
      AtAppended(s, t, q, a[0]);
      NonEmptyAt(s, q, a[0]);
      SpellsAppended(a[1..], s, q + |a[0]|, b, t);
      assert (a + b)[0] == a[0] && (a + b)[1..] == a[1..] + b;
    }
  }

  lemma NonEmptyAt(s: bytes, q: nat, x: bytes)
    requires At(s, q, x)
    ensures q + |x| <= |s|
  {
  }

  /** The token lists and the texts that spell them concatenate together. */
  lemma {:induction false} SpellsConcat(a: seq<bytes>, s: bytes, b: seq<bytes>, t: bytes)
    requires Spells(a, s) && Spells(b, t)
    ensures Spells(a + b, s + t)
  {
    SpellsAppended(a, s, 0, b, t);
  }

  // --------------------------------------------------------------------------- Erasing white space

  /** The document from `p` on without the white space outside string literals. */
  function Erased(doc: bytes, p: nat): bytes
    requires p <= |doc|
    decreases |doc| - p
  {
    if p == |doc| then []
    else if IsSpace(doc[p]) then Erased(doc, p + 1)
    else if doc[p] == QUOTE then
      var end := StringEnd(doc, p + 1).1;
      doc[p..end] + Erased(doc, end)
    else [doc[p]] + Erased(doc, p + 1)
  }

  /** Free of white space and quotes. */
  predicate IsBare(x: bytes) {
    forall i :: 0 <= i < |x| ==> !IsSpace(x[i]) && x[i] != QUOTE
  }

  /** A token that erasing leaves alone: bare, or one whole string literal. */
  predicate IsSolid(x: bytes) {
    IsBare(x) || (|x| > 0 && x[0] == QUOTE && StringEnd(x, 1) == (true, |x|))
  }

  predicate AllSolid(toks: seq<bytes>) {
    forall i :: 0 <= i < |toks| ==> IsSolid(toks[i])
  }

  lemma {:induction false} StringEndExtends(x: bytes, k: nat, doc: bytes, q: nat)
    requires At(doc, q, x) && k <= |x| && StringEnd(x, k).0
    ensures StringEnd(doc, q + k) == (true, q + StringEnd(x, k).1)
    decreases |x| - k
  {
    assert k < |x|;
    AtIndex(doc, q, x, k);
    if x[k] == BACKSLASH {
      assert k + 2 <= |x|;
      StringEndExtends(x, k + 2, doc, q);
    } else if x[k] != QUOTE {
      StringEndExtends(x, k + 1, doc, q);
    }
  }

  lemma {:induction false} ErasedSkips(doc: bytes, p: nat)
    requires p <= |doc|
    ensures Erased(doc, p) == Erased(doc, SkipSpaces(doc, p))
    decreases |doc| - p
  {
    if p < |doc| && IsSpace(doc[p]) {
      ErasedSkips(doc, p + 1);
    }
  }

  lemma {:induction false} ErasedBare(doc: bytes, p: nat, x: bytes)
    requires At(doc, p, x) && IsBare(x)
    ensures Erased(doc, p) == x + Erased(doc, p + |x|)
    decreases |x|
  {
    hide StringEnd, At, Erased;
    NonEmptyAt(doc, p, x);
    if x != [] {
      assert x == [x[0]] + x[1..];
      AtSplit(doc, p, [x[0]], x[1..]);
      ErasedBare(doc, p + 1, x[1..]);
      AtIndex(doc, p, [x[0]], 0);
      ErasedPlain(doc, p);
    }
  }

  lemma ErasedPlain(doc: bytes, p: nat)
    requires p < |doc| && !IsSpace(doc[p]) && doc[p] != QUOTE
    ensures Erased(doc, p) == [doc[p]] + Erased(doc, p + 1)
  {
  }

  lemma {:induction false} ErasedToken(doc: bytes, p: nat, x: bytes)
    requires At(doc, p, x) && IsSolid(x)
    ensures Erased(doc, p) == x + Erased(doc, p + |x|)
  {
    hide At, StringEnd, Erased;
    if IsBare(x) {
      ErasedBare(doc, p, x);
    } else {
      AtIndex(doc, p, x, 0);
      StringEndExtends(x, 1, doc, p);
      ErasedString(doc, p, x);
    }
  }

  lemma {:induction false} ErasedString(doc: bytes, p: nat, x: bytes)
    requires At(doc, p, x) && p < |doc| && doc[p] == QUOTE && StringEnd(doc, p + 1) == (true, p + |x|)
    ensures Erased(doc, p) == x + Erased(doc, p + |x|)
  {
    hide StringEnd;
  }

  lemma FirstSolid(toks: seq<bytes>)
    requires AllSolid(toks) && toks != []
    ensures IsSolid(toks[0]) && AllSolid(toks[1..]) && Concat(toks) == toks[0] + Concat(toks[1..])
  {
  }

  lemma {:induction false} ErasedOneToken(doc: bytes, p: nat, x: bytes)
    requires p <= |doc| && x != [] && At(doc, SkipSpaces(doc, p), x) && IsSolid(x)
    ensures SkipSpaces(doc, p) + |x| <= |doc|
    ensures Erased(doc, p) == x + Erased(doc, SkipSpaces(doc, p) + |x|)
  {
    hide StringEnd, At, IsSolid, Erased, SkipSpaces;
    NonEmptyAt(doc, SkipSpaces(doc, p), x);
    ErasedSkips(doc, p);
    ErasedToken(doc, SkipSpaces(doc, p), x);
  }

  /** Erasing a text that spells tokens leaves the tokens. */
  lemma {:induction false} SpelledErases(toks: seq<bytes>, doc: bytes, p: nat)
    requires p <= |doc| && SpellsFrom(toks, doc, p) && AllSolid(toks)
    ensures Erased(doc, p) == Concat(toks)
    decreases |toks|
  {
    if toks == [] {
      ErasedSkips(doc, p);
    } else {
      hide StringEnd, At, IsSolid, AllSolid, Erased, SkipSpaces, Concat;
      FirstSolid(toks);
      ErasedOneToken(doc, p, toks[0]);
      SpelledErases(toks[1..], doc, SkipSpaces(doc, p) + |toks[0]|);
    }
  }

  // --------------------------------------------------------------------------- Tokens and the compact text

  lemma {:induction false} ConcatAppend(a: seq<bytes>, b: seq<bytes>)
    ensures Concat(a + b) == Concat(a) + Concat(b)
    decreases |a|
  {
    if a == [] {
      assert a + b == b;
    } else {
      assert (a + b)[1..] == a[1..] + b;
      ConcatAppend(a[1..], b);
    }
  }

  lemma {:induction false} ConcatOne(x: bytes)
    ensures Concat([x]) == x
  {
    assert Concat([x]) == x + Concat([]);
  }

  /** The tokens put together are the compact text. */
  lemma {:induction false} TokensConcat(w: Value, o: Options)
    requires !o.yamlCompatible
    ensures Concat(Tokens(w, o)) == FastText(w, o)
    decreases w, 0
  {
    hide ScalarText, Quoted;
    match w.data
    case Array(m) =>
      ElementTokensConcat(m, o);
      ConcatAppend([[LEFT_BRACKET]], ElementTokens(m, o));
      ConcatAppend([[LEFT_BRACKET]] + ElementTokens(m, o), [[RIGHT_BRACKET]]);
      ConcatOne([LEFT_BRACKET]);
      ConcatOne([RIGHT_BRACKET]);
    case Object(m) =>
      MemberTokensConcat(m, o);
      ConcatAppend([[LEFT_BRACE]], MemberTokens(m, o));
      ConcatAppend([[LEFT_BRACE]] + MemberTokens(m, o), [[RIGHT_BRACE]]);
      ConcatOne([LEFT_BRACE]);
      ConcatOne([RIGHT_BRACE]);
    case d =>
      ConcatOne(ScalarText(d, o));
  }

  lemma {:induction false} CommaTokensConcat(more: bool)
    ensures Concat(CommaTokens(more)) == CommaIf(more)
  {
    ConcatOne([COMMA]);
  }

  lemma {:induction false} ElementTokensConcat(m: Entries, o: Options)
    requires !o.yamlCompatible
    ensures Concat(ElementTokens(m, o)) == ElementsText(m, o)
    decreases m, 0
  {
    hide Tokens, FastText;
    if m.Cons? {
      TokensConcat(m.value, o);
      ElementTokensConcat(m.rest, o);
      CommaTokensConcat(m.rest.Cons?);
      ConcatAppend(CommaTokens(m.rest.Cons?), ElementTokens(m.rest, o));
      ConcatAppend(Tokens(m.value, o), CommaTokens(m.rest.Cons?) + ElementTokens(m.rest, o));
    }
  }

  lemma {:induction false} MemberTokensConcat(m: Entries, o: Options)
    requires !o.yamlCompatible
    ensures Concat(MemberTokens(m, o)) == MembersText(m, o)
    decreases m, 0
  {
    hide Tokens, FastText, Quoted;
    if m.Cons? {
      var name := Quoted(NameOf(m.key));
      TokensConcat(m.value, o);
      MemberTokensConcat(m.rest, o);
      CommaTokensConcat(m.rest.Cons?);
      ConcatAppend(CommaTokens(m.rest.Cons?), MemberTokens(m.rest, o));
      ConcatAppend(Tokens(m.value, o), CommaTokens(m.rest.Cons?) + MemberTokens(m.rest, o));
      ConcatAppend([name, [COLON]], Tokens(m.value, o) + (CommaTokens(m.rest.Cons?) + MemberTokens(m.rest, o)));
      assert [name, [COLON]] == [name] + [[COLON]];
      ConcatAppend([name], [[COLON]]);
      ConcatOne(name);
      ConcatOne([COLON]);
    }
  }

  /** The tokens with a space after each colon. */
  function Widened(toks: seq<bytes>): seq<bytes> {
    if toks == [] then []
    else [if toks[0] == [58] then [58, 32] else toks[0]] + Widened(toks[1..])
  }

  lemma {:induction false} WidenedAppend(a: seq<bytes>, b: seq<bytes>)
    ensures Widened(a + b) == Widened(a) + Widened(b)
    decreases |a|
  {
    if a == [] {
      assert a + b == b;
    } else {
      assert (a + b)[1..] == a[1..] + b;
      WidenedAppend(a[1..], b);
    }
  }

  lemma {:induction false} WidenedOne(x: bytes)
    ensures Widened([x]) == [if x == [58] then [58, 32] else x]
  {
    assert Widened([x][1..]) == [];
  }

  lemma {:induction false} WidenedJoin(a: seq<bytes>, b: seq<bytes>)
    ensures Concat(Widened(a + b)) == Concat(Widened(a)) + Concat(Widened(b))
  {
    WidenedAppend(a, b);
    ConcatAppend(Widened(a), Widened(b));
  }

  /** A token that is no colon stays as it is. */
  lemma {:induction false} WidenedPlain(x: bytes)
    ensures Concat(Widened([x])) == if x == [58] then [58, 32] else x
  {
    WidenedOne(x);
    ConcatOne(if x == [58] then [58, 32] else x);
  }

  lemma {:induction false} ScalarWidened(d: Data, o: Options)
    requires forall x :: o.formatReal(x) != [58]
    ensures Concat(Widened(ScalarTokens(d, o))) == ScalarText(d, o)
  {
    hide Quoted, IntText, DecText;
    if ScalarText(d, o) != [] {
      assert ScalarText(d, o) != [58] by {
        ScalarIsNoColon(d, o);
      }
      WidenedPlain(ScalarText(d, o));
    }
  }

  lemma {:induction false} ScalarIsNoColon(d: Data, o: Options)
    requires forall x :: o.formatReal(x) != [58]
    ensures ScalarText(d, o) != [58]
  {
    hide Quoted;
    if d.Str? && d.s.Some? {
      QuotedBegins(d.s.value);
    }
  }

  /** In YAML mode the tokens are put together with a space after each colon. */
  lemma {:induction false} YamlConcat(w: Value, o: Options)
    requires o.yamlCompatible && forall x :: o.formatReal(x) != [58]
    ensures Concat(Widened(Tokens(w, o))) == FastText(w, o)
    decreases w, 0
  {
    hide ScalarText, Quoted, ScalarTokens, Widened;
    match w.data
    case Array(m) =>
      YamlElements(m, o);
      WidenedJoin([[LEFT_BRACKET]], ElementTokens(m, o));
      WidenedJoin([[LEFT_BRACKET]] + ElementTokens(m, o), [[RIGHT_BRACKET]]);
      WidenedPlain([LEFT_BRACKET]);
      WidenedPlain([RIGHT_BRACKET]);
    case Object(m) =>
      YamlMembers(m, o);
      WidenedJoin([[LEFT_BRACE]], MemberTokens(m, o));
      WidenedJoin([[LEFT_BRACE]] + MemberTokens(m, o), [[RIGHT_BRACE]]);
      WidenedPlain([LEFT_BRACE]);
      WidenedPlain([RIGHT_BRACE]);
    case d =>
      ScalarWidened(d, o);
  }

  lemma {:induction false} CommaWidened(more: bool)
    ensures Concat(Widened(CommaTokens(more))) == CommaIf(more)
  {
    WidenedPlain([COMMA]);
  }

  lemma {:induction false} YamlElements(m: Entries, o: Options)
    requires o.yamlCompatible && forall x :: o.formatReal(x) != [58]
    ensures Concat(Widened(ElementTokens(m, o))) == ElementsText(m, o)
    decreases m, 0
  {
    hide Tokens, FastText;
    if m.Cons? {
      YamlConcat(m.value, o);
      YamlElements(m.rest, o);
      CommaWidened(m.rest.Cons?);
      WidenedJoin(CommaTokens(m.rest.Cons?), ElementTokens(m.rest, o));
      WidenedJoin(Tokens(m.value, o), CommaTokens(m.rest.Cons?) + ElementTokens(m.rest, o));
    }
  }

  lemma {:induction false} YamlMembers(m: Entries, o: Options)
    requires o.yamlCompatible && forall x :: o.formatReal(x) != [58]
    ensures Concat(Widened(MemberTokens(m, o))) == MembersText(m, o)
    decreases m, 0
  {
    hide Tokens, FastText, Quoted, Widened;
    if m.Cons? {
      var name := Quoted(NameOf(m.key));
      var later := CommaTokens(m.rest.Cons?) + MemberTokens(m.rest, o);
      YamlConcat(m.value, o);
      YamlMembers(m.rest, o);
      CommaWidened(m.rest.Cons?);
      WidenedJoin(CommaTokens(m.rest.Cons?), MemberTokens(m.rest, o));
      WidenedJoin(Tokens(m.value, o), later);
      WidenedJoin([name, [COLON]], Tokens(m.value, o) + later);
      assert [name, [COLON]] == [name] + [[COLON]];
      WidenedJoin([name], [[COLON]]);
      QuotedBegins(NameOf(m.key));
      WidenedPlain(name);
      WidenedPlain([COLON]);
    } else {
      NoTokens(o);
      assert Widened([]) == [] by {
        NothingWidened();
      }
    }
  }

  lemma NothingWidened()
    ensures Widened([]) == []
  {
  }

  /** The text a double is formatted as has neither white space nor quotes. */
  ghost predicate FormatsBare(o: Options) {
    forall d :: IsBare(o.formatReal(d))
  }

  lemma {:induction false} TokensSolid(w: Value, o: Options)
    requires FormatsBare(o)
    ensures AllSolid(Tokens(w, o))
    decreases w, 0
  {
    hide IsSolid, StringEnd;
    match w.data
    case Array(m) =>
      ElementTokensSolid(m, o);
      PunctuationSolid();
    case Object(m) =>
      MemberTokensSolid(m, o);
      PunctuationSolid();
    case d =>
      ScalarSolid(d, o);
  }

  lemma PunctuationSolid()
    ensures forall c | c in {COMMA, COLON, LEFT_BRACKET, RIGHT_BRACKET, LEFT_BRACE, RIGHT_BRACE} :: IsSolid([c])
  {
  }

  lemma {:induction false} QuotedSolid(s: bytes)
    ensures IsSolid(Quoted(s))
  {
    QuotedReadsBack(s);
  }

  lemma {:induction false} ScalarSolid(d: Data, o: Options)
    requires FormatsBare(o)
    ensures AllSolid(ScalarTokens(d, o))
  {
    hide StringEnd, Quoted, EscapeText;
    match d
    case Str(s) =>
      if s.Some? {
        QuotedSolid(s.value);
      }
    case _ =>
  }

  lemma {:induction false} ElementTokensSolid(m: Entries, o: Options)
    requires FormatsBare(o)
    ensures AllSolid(ElementTokens(m, o))
    decreases m, 0
  {
    hide IsSolid, StringEnd;
    if m.Cons? {
      TokensSolid(m.value, o);
      ElementTokensSolid(m.rest, o);
      PunctuationSolid();
    }
  }

  lemma {:induction false} MemberTokensSolid(m: Entries, o: Options)
    requires FormatsBare(o)
    ensures AllSolid(MemberTokens(m, o))
    decreases m, 0
  {
    hide IsSolid, StringEnd;
    if m.Cons? {
      TokensSolid(m.value, o);
      MemberTokensSolid(m.rest, o);
      PunctuationSolid();
      QuotedSolid(NameOf(m.key));
    }
  }

  /** Erasing white space from any text that spells a tree's tokens gives the compact text. */
  lemma {:induction false} SpelledTreeErases(w: Value, o: Options, text: bytes)
    requires FormatsBare(o) && !o.yamlCompatible && Spells(Tokens(w, o), text)
    ensures Erased(text, 0) == FastText(w, o)
  {
    TokensSolid(w, o);
    SpelledErases(Tokens(w, o), text, 0);
    TokensConcat(w, o);
  }

  // --------------------------------------------------------------------------- Tokens and the grammar

  /** What may follow a number: nothing, or a token starting with something not part of a number. */
  predicate StopsNumber(toks: seq<bytes>) {
    toks == [] || (toks[0] != [] && !NumberCharacter(toks[0][0]))
  }

  lemma {:induction false} SpelledAfterNumber(toks: seq<bytes>, doc: bytes, p: nat)
    requires p <= |doc| && SpellsFrom(toks, doc, p) && StopsNumber(toks)
    ensures p < |doc| ==> !NumberCharacter(doc[p])
  {
    var q := SkipSpaces(doc, p);
    if p < |doc| && !IsSpace(doc[p]) {
      AtIndex(doc, q, toks[0], 0);
    }
  }

  /** The first token of a spelled list, after white space. */
  lemma {:induction false} SpelledFirst(x: bytes, more: seq<bytes>, doc: bytes, p: nat) returns (a: nat)
    requires p <= |doc| && SpellsFrom([x] + more, doc, p)
    ensures p <= a && a + |x| <= |doc| && Blanks(doc, p, a) && At(doc, a, x) && SpellsFrom(more, doc, a + |x|)
  {
    assert ([x] + more)[0] == x && ([x] + more)[1..] == more;
    a := SkipSpaces(doc, p);
    SkippedBlanks(doc, p);
  }

  lemma {:induction false} SpelledChar(c: byte, more: seq<bytes>, doc: bytes, p: nat) returns (q: nat)
    requires p <= |doc| && SpellsFrom([[c]] + more, doc, p)
    ensures p < q <= |doc| && Blanks(doc, p, q - 1) && doc[q - 1] == c && SpellsFrom(more, doc, q)
    ensures Closes(doc, c, p, q)
  {
    hide SpellsFrom;
    var a := SpelledFirst([c], more, doc, p);
    AtIndex(doc, a, [c], 0);
    q := a + 1;
    BlanksAreGap(doc, p, a);
  }

  /** A text that spells a printable tree's tokens and more is a text of the tree as read back, and the rest. */
  lemma {:induction false} SpelledIsText(s: Source, w: Value, o: Options, more: seq<bytes>, p: nat)
    returns (a: nat, q: nat)
    requires Printable(w, o, s.scan) && !o.dropNullPlaceholders && p <= |s.doc|
    requires SpellsFrom(Tokens(w, o) + more, s.doc, p) && (IsNumber(w.data) ==> StopsNumber(more))
    ensures p <= a < q <= |s.doc| && Blanks(s.doc, p, a) && SpellsFrom(more, s.doc, q)
    ensures ValueText(s, AsRead(w, o, s.scan), a, q)
    decreases w, 2
  {
    hide SpellsFrom, ValueText, ElementTokens, MemberTokens, ScalarTokens, AsRead, Printable, Blanks;
    match w.data
    case Array(m) => a, q := SpelledArray(s, w, m, o, more, p);
    case Object(m) => a, q := SpelledObject(s, w, m, o, more, p);
    case d => a, q := SpelledScalar(s, w, o, more, p);
  }

  lemma {:induction false} SpelledScalar(s: Source, w: Value, o: Options, more: seq<bytes>, p: nat)
    returns (a: nat, q: nat)
    requires Printable(w, o, s.scan) && !IsContainer(w.data) && !o.dropNullPlaceholders && p <= |s.doc|
    requires SpellsFrom(ScalarTokens(w.data, o) + more, s.doc, p) && (IsNumber(w.data) ==> StopsNumber(more))
    ensures p <= a < q <= |s.doc| && Blanks(s.doc, p, a) && SpellsFrom(more, s.doc, q)
    ensures ValueText(s, AsRead(w, o, s.scan), a, q)
  {
    hide SpellsFrom, ValueText, Blanks, ScalarText, At, NumberMeaning, Readable;
    var t := ScalarText(w.data, o);
    ScalarPrints(w.data, o, s.scan);
    a := SpelledFirst(t, more, s.doc, p);
    q := a + |t|;
    if IsNumber(w.data) {
      SpelledAfterNumber(more, s.doc, q);
    }
    ScalarIsText(s, w.data, o, a);
    assert AsRead(w, o, s.scan) == AsRead(Plain(w.data), o, s.scan);
  }

  lemma {:induction false} ScalarPrints(d: Data, o: Options, scan: bytes -> Option<Double>)
    requires Printable(Plain(d), o, scan) && !IsContainer(d) && !o.dropNullPlaceholders
    ensures ScalarText(d, o) != [] && !IsSpace(ScalarText(d, o)[0])
  {
    hide IntText, DecText, Quoted, NumberMeaning;
    if IsNumber(d) {
      hide ScalarText;
      NumberPrinted(d, o, scan);
    } else if d.Str? {
      assert Quoted(d.s.value)[0] == QUOTE by {
        QuotedBegins(d.s.value);
      }
    }
  }

  lemma QuotedBegins(t: bytes)
    ensures |Quoted(t)| >= 2 && Quoted(t)[0] == QUOTE
  {
  }

  lemma NoTokens(o: Options)
    ensures ElementTokens(Nil, o) == [] && MemberTokens(Nil, o) == []
  {
  }

  lemma ReadContainer(w: Value, o: Options, scan: bytes -> Option<Double>)
    ensures w.data.Array? ==> AsRead(w, o, scan).data == Array(AsReadEntries(w.data.entries, o, scan))
    ensures w.data.Object? ==> AsRead(w, o, scan).data == Object(AsReadEntries(w.data.entries, o, scan))
  {
  }

  lemma {:induction false} SpelledArray(s: Source, w: Value, m: Entries, o: Options, more: seq<bytes>, p: nat)
    returns (a: nat, q: nat)
    requires w.data == Array(m) && Printable(w, o, s.scan) && !o.dropNullPlaceholders && p <= |s.doc|
    requires SpellsFrom(Tokens(w, o) + more, s.doc, p)
    ensures p <= a < q <= |s.doc| && Blanks(s.doc, p, a) && SpellsFrom(more, s.doc, q)
    ensures ValueText(s, AsRead(w, o, s.scan), a, q)
    decreases w, 1
  {
    hide SpellsFrom, ElementTokens, AsRead, Blanks, ElementList;
    NoTokens(o);
    ReadContainer(w, o, s.scan);
    assert Tokens(w, o) + more == [[LEFT_BRACKET]] + (ElementTokens(m, o) + ([[RIGHT_BRACKET]] + more));
    a := SpelledFirst([LEFT_BRACKET], ElementTokens(m, o) + ([[RIGHT_BRACKET]] + more), s.doc, p);
    AtIndex(s.doc, a, [LEFT_BRACKET], 0);
    if m.Nil? {
      assert ElementTokens(m, o) + ([[RIGHT_BRACKET]] + more) == [[RIGHT_BRACKET]] + more;
      q := SpelledChar(RIGHT_BRACKET, more, s.doc, a + 1);
    } else {
      q := SpelledElements(s, m, 0, o, more, a + 1);
    }
  }

  lemma {:induction false} SpelledObject(s: Source, w: Value, m: Entries, o: Options, more: seq<bytes>, p: nat)
    returns (a: nat, q: nat)
    requires w.data == Object(m) && Printable(w, o, s.scan) && !o.dropNullPlaceholders && p <= |s.doc|
    requires SpellsFrom(Tokens(w, o) + more, s.doc, p)
    ensures p <= a < q <= |s.doc| && Blanks(s.doc, p, a) && SpellsFrom(more, s.doc, q)
    ensures ValueText(s, AsRead(w, o, s.scan), a, q)
    decreases w, 1
  {
    hide SpellsFrom, MemberTokens, AsRead, Blanks, ValueText, MemberList, Closes, Printable;
    NoTokens(o);
    ReadContainer(w, o, s.scan);
    assert Tokens(w, o) + more == [[LEFT_BRACE]] + (MemberTokens(m, o) + ([[RIGHT_BRACE]] + more));
    a := SpelledFirst([LEFT_BRACE], MemberTokens(m, o) + ([[RIGHT_BRACE]] + more), s.doc, p);
    AtIndex(s.doc, a, [LEFT_BRACE], 0);
    if m.Nil? {
      assert MemberTokens(m, o) + ([[RIGHT_BRACE]] + more) == [[RIGHT_BRACE]] + more;
      q := SpelledChar(RIGHT_BRACE, more, s.doc, a + 1);
      assert AsReadEntries(m, o, s.scan) == Nil && MemberList(s, Nil, [], a + 1, q) by {
        NoMembers(s, a + 1, q);
      }
    } else {
      MembersPrintable(w, o, s.scan);
      q := SpelledMembers(s, m, [], o, more, a + 1);
    }
    ObjectIsText(s, AsRead(w, o, s.scan), a, q);
  }

  lemma NoMembers(s: Source, p: nat, q: nat)
    requires Closes(s.doc, 125, p, q)
    ensures MemberList(s, Nil, [], p, q)
  {
  }

  lemma MembersPrintable(w: Value, o: Options, scan: bytes -> Option<Double>)
    requires w.data.Object? && Printable(w, o, scan)
    ensures PrintableMembers(w.data.entries, o, scan)
  {
  }

  lemma ObjectIsText(s: Source, w: Value, a: nat, q: nat)
    requires w.data.Object? && a < q <= |s.doc| && s.doc[a] == 123 && MemberList(s, w.data.entries, [], a + 1, q)
    ensures ValueText(s, w, a, q)
  {
  }

  lemma {:induction false} ElementTokensSplit(m: Entries, o: Options, close: seq<bytes>)
    requires m.Cons?
    ensures ElementTokens(m, o) + close ==
            if m.rest.Nil? then Tokens(m.value, o) + close
                else Tokens(m.value, o) + ([[COMMA]] + (ElementTokens(m.rest, o) + close))
  {
    hide Tokens;
    if m.rest.Nil? {
      assert CommaTokens(false) + ElementTokens(Nil, o) == [];
    }
  }

  /** A text after white space. */
  lemma {:induction false} AfterBlanks(s: Source, w: Value, p: nat, a: nat, q: nat)
    requires Blanks(s.doc, p, a) && ValueText(s, w, a, q)
    ensures SpacedText(s, w, p, q)
  {
    hide ValueText, Blanks;
    BlanksAreGap(s.doc, p, a);
    assert Lead(s, p, a);
  }

  lemma {:induction false} SpelledElements(s: Source, m: Entries, i: nat, o: Options, more: seq<bytes>, p: nat)
    returns (q: nat)
    requires m.Cons? && PrintableElements(m, i, o, s.scan) && !o.dropNullPlaceholders && p <= |s.doc|
    requires SpellsFrom(ElementTokens(m, o) + ([[RIGHT_BRACKET]] + more), s.doc, p)
    ensures p < q <= |s.doc| && SpellsFrom(more, s.doc, q)
    ensures ElementList(s, AsReadEntries(m, o, s.scan), i, p, q)
    decreases m, 3
  {
    hide SpellsFrom, Tokens, ElementTokens, AsRead, Blanks, ValueText, Printable, SpacedText, Closes;
    var close := [[RIGHT_BRACKET]] + more;
    ElementTokensSplit(m, o, close);
    var next := if m.rest.Nil? then close else [[COMMA]] + (ElementTokens(m.rest, o) + close);
    var a, e := SpelledIsText(s, m.value, o, next, p);
    AfterBlanks(s, AsRead(m.value, o, s.scan), p, a, e);
    if m.rest.Nil? {
      q := SpelledChar(RIGHT_BRACKET, more, s.doc, e);
    } else {
      var c := SpelledChar(COMMA, ElementTokens(m.rest, o) + close, s.doc, e);
      q := SpelledElements(s, m.rest, i + 1, o, more, c);
    }
  }

  lemma {:induction false} SpelledName(name: bytes, more: seq<bytes>, doc: bytes, p: nat) returns (q: nat)
    requires p <= |doc| && SpellsFrom([Quoted(name), [COLON]] + more, doc, p)
    ensures p < q <= |doc| && Label(doc, name, p, q) && SpellsFrom(more, doc, q)
  {
    hide SpellsFrom, Quoted, At, Blanks, Literal;
    assert [Quoted(name), [COLON]] + more == [Quoted(name)] + ([[COLON]] + more);
    var a := SpelledFirst(Quoted(name), [[COLON]] + more, doc, p);
    BlanksAreGap(doc, p, a);
    QuotedIsLiteral(doc, a, name);
    q := SpelledChar(COLON, more, doc, a + |Quoted(name)|);
    assert ColonAt(doc, a + |Quoted(name)|, q);
  }

  lemma {:induction false} MemberTokensSplit(m: Entries, o: Options, close: seq<bytes>)
    requires m.Cons?
    ensures MemberTokens(m, o) + close ==
            [Quoted(NameOf(m.key)), [COLON]] +
            (Tokens(m.value, o) +
             if m.rest.Nil? then close else [[COMMA]] + (MemberTokens(m.rest, o) + close))
  {
    hide Tokens, Quoted;
    if m.rest.Nil? {
      assert CommaTokens(false) + MemberTokens(Nil, o) == [];
    }
  }

  lemma {:induction false} SpelledMembers(s: Source, m: Entries, last: bytes, o: Options, more: seq<bytes>, p: nat)
    returns (q: nat)
    requires m.Cons? && PrintableMembers(m, o, s.scan) && !o.dropNullPlaceholders && p <= |s.doc|
    requires SpellsFrom(MemberTokens(m, o) + ([[RIGHT_BRACE]] + more), s.doc, p)
    ensures p < q <= |s.doc| && SpellsFrom(more, s.doc, q)
    ensures MemberList(s, AsReadEntries(m, o, s.scan), last, p, q)
    decreases m, 3
  {
    hide SpellsFrom, Tokens, MemberTokens, AsRead, Blanks, ValueText, Printable, SpacedText, Closes, Label, Quoted;
    var close := [[RIGHT_BRACE]] + more;
    var next := if m.rest.Nil? then close else [[COMMA]] + (MemberTokens(m.rest, o) + close);
    MemberTokensSplit(m, o, close);
    var c := SpelledName(NameOf(m.key), Tokens(m.value, o) + next, s.doc, p);
    var a, e := SpelledIsText(s, m.value, o, next, c);
    AfterBlanks(s, AsRead(m.value, o, s.scan), c, a, e);
    if m.rest.Nil? {
      q := SpelledChar(RIGHT_BRACE, more, s.doc, e);
    } else {
      var b := SpelledChar(COMMA, MemberTokens(m.rest, o) + close, s.doc, e);
      q := SpelledMembers(s, m.rest, m.key.s, o, more, b);
      assert Separates(s.doc, e, b);
      assert MoreMembers(s, AsReadEntries(m.rest, o, s.scan), m.key.s, e, q);
    }
  }

  /** A document that spells a printable tree's tokens begins with a text of the tree as read back. */
  lemma {:induction false} SpelledDocument(s: Source, w: Value, o: Options)
    requires Printable(w, o, s.scan) && !o.dropNullPlaceholders && Spells(Tokens(w, o), s.doc)
    ensures DocumentText(s, AsRead(w, o, s.scan))
  {
    hide SpellsFrom, Tokens, ValueText, AsRead, Printable;
    assert Tokens(w, o) + [] == Tokens(w, o);
    var a, q := SpelledIsText(s, w, o, [], 0);
    AfterBlanks(s, AsRead(w, o, s.scan), 0, a, q);
  }
}
