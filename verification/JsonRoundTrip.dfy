/**
 Printing and reading back: the text of FastWriter spells the tokens of the tree it prints, so the
 reader recovers the tree.
 */
module JsonRoundTrip {
  import opened Bytes
  import opened JsonString
  import opened JsonValue
  import opened JsonParser
  import opened JsonFastWriter
  import opened JsonGrammar
  import opened JsonReading
  import opened JsonPrintable
  import opened JsonTokens

  // --------------------------------------------------------------------------- The compact text

  lemma {:induction false} CharSpells(c: byte)
    requires !IsSpace(c)
    ensures Spells([[c]], [c])
  {
    TokenSpells([c]);
  }

  lemma {:induction false} ScalarSpelled(d: Data, o: Options, scan: bytes -> Option<Double>)
    requires Printable(Plain(d), o, scan) && !IsContainer(d) && !o.dropNullPlaceholders
    ensures Spells(ScalarTokens(d, o), ScalarText(d, o))
  {
    hide ScalarText, Spells, Readable;
    ScalarPrints(d, o, scan);
    TokenSpells(ScalarText(d, o));
  }

  /** The text of FastWriter spells the tokens of its tree. */
  lemma {:induction false} FastSpells(w: Value, o: Options, scan: bytes -> Option<Double>)
    requires Printable(w, o, scan) && !o.dropNullPlaceholders
    ensures Spells(Tokens(w, o), FastText(w, o))
    decreases w, 0
  {
    hide Spells, ScalarText, ElementsText, MembersText, ElementTokens, MemberTokens, Readable, ScalarTokens;
    match w.data
    case Array(m) =>
      FastElementsSpell(m, 0, o, scan);
      BracketsAround(LEFT_BRACKET, ElementTokens(m, o), ElementsText(m, o), RIGHT_BRACKET);
    case Object(m) =>
      FastMembersSpell(m, o, scan);
      BracketsAround(LEFT_BRACE, MemberTokens(m, o), MembersText(m, o), RIGHT_BRACE);
    case d =>
      ScalarSpelled(d, o, scan);
  }

  lemma {:induction false} BracketsAround(open: byte, toks: seq<bytes>, text: bytes, close: byte)
    requires !IsSpace(open) && !IsSpace(close) && Spells(toks, text)
    ensures Spells([[open]] + toks + [[close]], [open] + text + [close])
  {
    hide Spells;
    CharSpells(open);
    CharSpells(close);
    SpellsConcat([[open]], [open], toks, text);
    SpellsConcat([[open]] + toks, [open] + text, [[close]], [close]);
  }

  lemma {:induction false} CommaSpelled(more: bool)
    ensures Spells(CommaTokens(more), CommaIf(more))
  {
    CharSpells(COMMA);
    SpacesSpell([]);
  }

  /** A value, perhaps a comma, and the rest. */
  lemma {:induction false} PieceSpells(toks: seq<bytes>, text: bytes, more: bool, later: seq<bytes>, rest: bytes)
    requires Spells(toks, text) && Spells(later, rest)
    ensures Spells(toks + (CommaTokens(more) + later), text + CommaIf(more) + rest)
  {
    hide Spells;
    CommaSpelled(more);
    SpellsConcat(CommaTokens(more), CommaIf(more), later, rest);
    SpellsConcat(toks, text, CommaTokens(more) + later, CommaIf(more) + rest);
    assert text + (CommaIf(more) + rest) == text + CommaIf(more) + rest;
  }

  lemma {:induction false} FastElementsSpell(m: Entries, i: nat, o: Options, scan: bytes -> Option<Double>)
    requires PrintableElements(m, i, o, scan) && !o.dropNullPlaceholders
    ensures Spells(ElementTokens(m, o), ElementsText(m, o))
    decreases m, 0
  {
    hide Spells, Tokens, FastText, Printable, CommaTokens, CommaIf;
    if m.Nil? {
      SpacesSpell([]);
    } else {
      FastSpells(m.value, o, scan);
      FastElementsSpell(m.rest, i + 1, o, scan);
      PieceSpells(Tokens(m.value, o), FastText(m.value, o), m.rest.Cons?, ElementTokens(m.rest, o),
                  ElementsText(m.rest, o));
    }
  }

  /** A quoted name and the colon, with or without the space after it. */
  lemma {:induction false} NameSpells(name: bytes, o: Options)
    ensures Spells([Quoted(name), [COLON]], Quoted(name) + ColonText(o))
  {
    hide Spells, Quoted;
    QuotedBegins(name);
    TokenSpells(Quoted(name));
    CharSpells(COLON);
    SpacesSpell(if o.yamlCompatible then [SPACE] else []);
    SpellsConcat([[COLON]], [COLON], [], if o.yamlCompatible then [SPACE] else []);
    assert [[COLON]] + [] == [[COLON]] && [COLON] + (if o.yamlCompatible then [SPACE] else []) == ColonText(o);
    SpellsConcat([Quoted(name)], Quoted(name), [[COLON]], ColonText(o));
    assert [Quoted(name)] + [[COLON]] == [Quoted(name), [COLON]];
  }

  lemma {:induction false} FastMembersSpell(m: Entries, o: Options, scan: bytes -> Option<Double>)
    requires PrintableMembers(m, o, scan) && !o.dropNullPlaceholders
    ensures Spells(MemberTokens(m, o), MembersText(m, o))
    decreases m, 0
  {
    hide Spells, Tokens, FastText, Printable, CommaTokens, CommaIf, Quoted, ColonText;
    if m.Nil? {
      SpacesSpell([]);
    } else {
      var name := NameOf(m.key);
      FastSpells(m.value, o, scan);
      FastMembersSpell(m.rest, o, scan);
      NameSpells(name, o);
      PieceSpells(Tokens(m.value, o), FastText(m.value, o), m.rest.Cons?, MemberTokens(m.rest, o),
                  MembersText(m.rest, o));
      SpellsConcat([Quoted(name), [COLON]], Quoted(name) + ColonText(o),
                   Tokens(m.value, o) + (CommaTokens(m.rest.Cons?) + MemberTokens(m.rest, o)),
                   FastText(m.value, o) + CommaIf(m.rest.Cons?) + MembersText(m.rest, o));
      MemberTextShape(m, o);
    }
  }

  lemma {:induction false} MemberTextShape(m: Entries, o: Options)
    requires m.Cons?
    ensures MembersText(m, o) ==
            Quoted(NameOf(m.key)) + ColonText(o) + (FastText(m.value, o) +
                                                    CommaIf(m.rest.Cons?) + MembersText(m.rest, o))
  {
    hide Quoted, FastText;
    var a, b, c, d, e := Quoted(NameOf(m.key)), ColonText(o), FastText(m.value, o), CommaIf(m.rest.Cons?),
        MembersText(m.rest, o);
    assert a + b + c + d + e == a + b + (c + d + e);
  }

  // --------------------------------------------------------------------------- Main result

  /**
   Printing a storable tree with FastWriter, with any of its options that keep nulls, and reading the
   text back: an exception exactly when the tree needs more than the limit of nested reads; otherwise the
   tree with its array slots filled, its integers re-tagged, and each double as its text denotes it. The
   text of that is the same again if each double's is.
   */
  lemma {:induction false} RoundTrip(v: Value, o: Options, features: Features, scan: bytes -> Option<Double>,
                                     root: Value)
    requires Valid(v) && Storable(v, o, scan) && !o.dropNullPlaceholders
    ensures
      var text := WrittenText(v, o) + if o.omitEndingLineFeed then [] else [LINE_FEED];
      var r := ParseDocument(Source(text, features, scan), root);
      && (r.Thrown? <==> Nest(FilledValue(v)) > 1000)
      && (r.Returned? ==>
            && Strip(r.value) == AsRead(FilledValue(v), o, scan)
            && (r.ok <==> !features.strictRoot || IsContainer(v.data))
            && (r.ok <==> r.errors == [])
            && Valid(r.value)
            && (Reprints(FilledValue(v), o, scan) ==> WrittenText(r.value, o) == WrittenText(v, o)))
  {
    hide ParseDocument, FastText, Spells, DocumentText, Tokens, AsRead, Printable, Reprints, ReadBack, Storable, Nest,
         Ordered;
    var w := FilledValue(v);
    var end: bytes := if o.omitEndingLineFeed then [] else [LINE_FEED];
    var s := Source(FastText(w, o) + end, features, scan);
    FilledIsPrintable(v, o, scan);
    FastSpells(w, o, scan);
    SpacesSpell(end);
    SpellsConcat(Tokens(w, o), FastText(w, o), [], end);
    assert Tokens(w, o) + [] == Tokens(w, o);
    SpelledDocument(s, w, o);
    AsReadShape(w, o, scan);
    DocumentReads(s, AsRead(w, o, scan), root);
    OrderedReadsBack(AsRead(w, o, scan));
    var r := ParseDocument(s, root);
    if r.Returned? {
      AsReadIsFilled(r.value, w, o, scan);
      if Reprints(w, o, scan) {
        AsReadText(w, o, scan);
      }
    }
  }
}
