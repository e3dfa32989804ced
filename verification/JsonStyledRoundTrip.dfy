/**
 What the output of a styled writer means: without its white space it is the text of FastWriter with
 the member names as that writer cuts them, and the reader gets the same tree from it.
 */
module JsonStyledRoundTrip {
  import opened Bytes
  import opened JsonString
  import opened JsonValue
  import opened JsonParser
  import opened JsonFastWriter
  import opened JsonGrammar
  import opened JsonReading
  import opened JsonPrintable
  import opened JsonTokens
  import opened JsonStyledText
  import opened JsonStyledWriter

  /** No member name anywhere in the tree holds a zero byte. */
  predicate NulFree(v: Value) {
    match v.data
    case Array(m) => NulFreeElements(m)
    case Object(m) => NulFreeMembers(m)
    case _ => true
  }

  predicate NulFreeElements(m: Entries) {
    match m
    case Nil => true
    case Cons(_, v, rest) => NulFree(v) && NulFreeElements(rest)
  }

  predicate NulFreeMembers(m: Entries) {
    match m
    case Nil => true
    case Cons(k, v, rest) => NUL !in NameOf(k) && NulFree(v) && NulFreeMembers(rest)
  }

  // --------------------------------------------------------------------------- Cutting names

  lemma {:induction false} CutShortens(s: bytes)
    ensures |EscapeText(CutAtNul(s))| <= |EscapeText(s)|
    ensures |EscapeText(CutAtNul(s))| == |EscapeText(s)| <==> NUL !in s
    ensures NUL !in s ==> CutAtNul(s) == s
  {
    if s != [] {
      assert s == [s[0]] + s[1..];
      CutShortens(s[1..]);
      if s[0] != NUL {
        assert CutAtNul(s)[0] == s[0] && CutAtNul(s)[1..] == CutAtNul(s[1..]);
      }
    }
  }

  lemma {:induction false} CutKeyShortens(k: Key)
    ensures |Quoted(NameOf(CutKey(k)))| <= |Quoted(NameOf(k))|
    ensures |Quoted(NameOf(CutKey(k)))| == |Quoted(NameOf(k))| <==> NUL !in NameOf(k)
    ensures NUL !in NameOf(k) ==> NameOf(CutKey(k)) == NameOf(k)
  {
    hide EscapeText;
    CutShortens(NameOf(k));
  }

  /** Cutting changes no token of a tree without zero bytes in its names, and shortens the text of any other. */
  lemma {:induction false} CutTree(w: Value, o: Options)
    ensures NulFree(w) ==> Tokens(CutKeys(w), o) == Tokens(w, o)
    ensures |FastText(CutKeys(w), o)| <= |FastText(w, o)|
    ensures !NulFree(w) ==> |FastText(CutKeys(w), o)| < |FastText(w, o)|
    decreases w, 0
  {
    hide ScalarText;
    match w.data
    case Array(m) => CutElements(m, o);
    case Object(m) => CutMembers(m, o);
    case _ =>
  }

  lemma {:induction false} CutElements(m: Entries, o: Options)
    ensures NulFreeElements(m) ==> ElementTokens(CutKeysOf(m), o) == ElementTokens(m, o)
    ensures |ElementsText(CutKeysOf(m), o)| <= |ElementsText(m, o)|
    ensures !NulFreeElements(m) ==> |ElementsText(CutKeysOf(m), o)| < |ElementsText(m, o)|
    decreases m, 0
  {
    hide Tokens, FastText, NulFree;
    if m.Cons? {
      CutTree(m.value, o);
      CutElements(m.rest, o);
      assert CutKeysOf(m).rest.Cons? == m.rest.Cons?;
    }
  }

  lemma {:induction false} CutMembers(m: Entries, o: Options)
    ensures NulFreeMembers(m) ==> MemberTokens(CutKeysOf(m), o) == MemberTokens(m, o)
    ensures |MembersText(CutKeysOf(m), o)| <= |MembersText(m, o)|
    ensures !NulFreeMembers(m) ==> |MembersText(CutKeysOf(m), o)| < |MembersText(m, o)|
    decreases m, 0
  {
    hide Tokens, FastText, NulFree, Quoted, CutKey, ColonText;
    if m.Cons? {
      CutTree(m.value, o);
      CutMembers(m.rest, o);
      CutKeyShortens(m.key);
      assert CutKeysOf(m) == Cons(CutKey(m.key), CutKeys(m.value), CutKeysOf(m.rest));
      assert CutKeysOf(m.rest).Cons? == m.rest.Cons?;
    }
  }

  // --------------------------------------------------------------------------- Filling keeps the names

  lemma {:induction false} FilledNulFree(v: Value)
    requires Valid(v)
    ensures NulFree(FilledValue(v)) == NulFree(v)
    decreases v, 0
  {
    match v.data
    case Array(m) => FilledElementsNulFree(m, 0);
    case Object(m) => FilledMembersNulFree(m);
    case _ =>
  }

  lemma {:induction false} FilledElementsNulFree(m: Entries, i: nat)
    requires KeysOfKind(m, true) && ValidEntries(m)
    ensures NulFreeElements(FilledEntries(m, i)) == NulFreeElements(m)
    decreases m, 0, if m.Cons? then m.key.n - i else 0
  {
    if m.Cons? {
      if i < m.key.n {
        FilledElementsNulFree(m, i + 1);
      } else {
        FilledNulFree(m.value);
        FilledElementsNulFree(m.rest, m.key.n + 1);
      }
    }
  }

  lemma {:induction false} FilledMembersNulFree(m: Entries)
    requires ValidEntries(m)
    ensures NulFreeMembers(FilledMembers(m)) == NulFreeMembers(m)
    decreases m, 0
  {
    if m.Cons? {
      FilledNulFree(m.value);
      FilledMembersNulFree(m.rest);
    }
  }

  // --------------------------------------------------------------------------- Main results

  /**
   Without the white space outside string literals, the output of a styled writer is the text of
   FastWriter on the tree as shown; and it is FastWriter's text of the tree itself exactly when the
   writer does not cut names or there is no zero byte to cut at.
   */
  lemma {:induction false} StyledErases(v: Value, cut: bool, o: Options, text: bytes)
    requires Valid(v) && FormatsBare(o) && !o.yamlCompatible && Spells(TokensOf(v, cut, o), text)
    ensures Erased(text, 0) == FastText(Shown(FilledValue(v), cut), o)
    ensures Erased(text, 0) == WrittenText(v, o) <==> !cut || NulFree(v)
  {
    hide Tokens, Erased, FastText;
    var w := FilledValue(v);
    SpelledTreeErases(Shown(w, cut), o, text);
    FilledNulFree(v);
    CutTree(w, o);
    if cut && NulFree(w) {
      TokensConcat(w, o);
      TokensConcat(CutKeys(w), o);
    }
  }

  // --------------------------------------------------------------------------- Reading cut names

  /** Cutting keeps depth and kind. */
  lemma {:induction false} CutShape(w: Value)
    ensures Nest(CutKeys(w)) == Nest(w) && IsContainer(CutKeys(w).data) == IsContainer(w.data)
    decreases w, 0
  {
    match w.data
    case Array(m) => CutEntriesShape(m);
    case Object(m) => CutEntriesShape(m);
    case _ =>
  }

  lemma {:induction false} CutEntriesShape(m: Entries)
    ensures NestOfEntries(CutKeysOf(m)) == NestOfEntries(m)
    decreases m, 0
  {
    hide CutKeys, Nest;
    if m.Cons? {
      CutShape(m.value);
      CutEntriesShape(m.rest);
    }
  }

  /**
   Cutting names leaves a printable tree printable, goes together with reading back, and changes nothing
   without zero bytes.
   */
  lemma {:induction false} CutPrintable(w: Value, o: Options, scan: bytes -> Option<Double>)
    requires Printable(w, o, scan)
    ensures Printable(CutKeys(w), o, scan) && AsRead(CutKeys(w), o, scan) == CutKeys(AsRead(w, o, scan))
    ensures NulFree(w) ==> AsRead(CutKeys(w), o, scan) == AsRead(w, o, scan)
    decreases w, 0
  {
    hide NumberMeaning, Readable;
    NumberKeepsNames(w, o, scan);
    match w.data
    case Array(m) => CutElementsPrintable(m, 0, o, scan);
    case Object(m) => CutMembersPrintable(m, o, scan);
    case _ =>
  }

  lemma {:induction false} NumberKeepsNames(w: Value, o: Options, scan: bytes -> Option<Double>)
    ensures !IsContainer(w.data) ==> CutKeys(AsRead(w, o, scan)) == AsRead(w, o, scan)
    ensures !IsContainer(w.data) ==> NulFree(AsRead(w, o, scan))
  {
    NumbersStayScalars(w, o, scan);
    hide NumberMeaning;
  }

  lemma {:induction false} CutElementsPrintable(m: Entries, i: nat, o: Options, scan: bytes -> Option<Double>)
    requires PrintableElements(m, i, o, scan)
    ensures PrintableElements(CutKeysOf(m), i, o, scan)
    ensures AsReadEntries(CutKeysOf(m), o, scan) == CutKeysOf(AsReadEntries(m, o, scan))
    ensures NulFreeElements(m) ==> AsReadEntries(CutKeysOf(m), o, scan) == AsReadEntries(m, o, scan)
    decreases m, 0
  {
    hide Printable, AsRead, CutKeys, NulFree;
    if m.Cons? {
      CutPrintable(m.value, o, scan);
      CutElementsPrintable(m.rest, i + 1, o, scan);
    }
  }

  lemma {:induction false} CutMembersPrintable(m: Entries, o: Options, scan: bytes -> Option<Double>)
    requires PrintableMembers(m, o, scan)
    ensures PrintableMembers(CutKeysOf(m), o, scan)
    ensures AsReadEntries(CutKeysOf(m), o, scan) == CutKeysOf(AsReadEntries(m, o, scan))
    ensures NulFreeMembers(m) ==> AsReadEntries(CutKeysOf(m), o, scan) == AsReadEntries(m, o, scan)
    decreases m, 0
  {
    hide Printable, AsRead, CutKeys, CutAtNul, NulFree, EscapeText;
    if m.Cons? {
      CutShortens(m.key.s);
      CutPrintable(m.value, o, scan);
      CutMembersPrintable(m.rest, o, scan);
    }
  }

  lemma {:induction false} CutHasNoNul(s: bytes)
    ensures NUL !in CutAtNul(s)
  {
    if s != [] {
      CutHasNoNul(s[1..]);
    }
  }

  /** What is read back from cut names has no zero byte in any name. */
  lemma {:induction false} CutReadsNulFree(w: Value)
    ensures NulFree(ReadBack(CutKeys(w)))
    decreases w, 0
  {
    match w.data
    case Array(m) => CutElementsReadNulFree(m);
    case Object(m) => CutMembersReadNulFree(m, Nil);
    case _ =>
  }

  lemma {:induction false} CutElementsReadNulFree(m: Entries)
    ensures NulFreeElements(ReadBackElements(CutKeysOf(m)))
    decreases m, 0
  {
    hide ReadBack, CutKeys, NulFree;
    if m.Cons? {
      CutReadsNulFree(m.value);
      CutElementsReadNulFree(m.rest);
    }
  }

  lemma {:induction false} CutMembersReadNulFree(m: Entries, acc: Entries)
    requires NulFreeMembers(acc)
    ensures NulFreeMembers(Entered(acc, CutKeysOf(m)))
    decreases m, 0
  {
    hide ReadBack, CutKeys, NulFree, Set, CutAtNul;
    if m.Cons? {
      var v := ReadBack(CutKeys(m.value));
      CutReadsNulFree(m.value);
      CutHasNoNul(NameOf(m.key));
      SetNulFree(acc, CutKey(m.key), v);
      CutMembersReadNulFree(m.rest, Set(acc, CutKey(m.key), v));
    }
  }

  lemma {:induction false} SetNulFree(m: Entries, key: Key, v: Value)
    requires NulFreeMembers(m) && NUL !in NameOf(key) && NulFree(v)
    ensures NulFreeMembers(Set(m, key, v))
    decreases m
  {
    if m.Cons? {
      SetNulFree(m.rest, key, v);
    }
  }

  /** Reading back changes no name. */
  lemma {:induction false} AsReadNulFree(w: Value, o: Options, scan: bytes -> Option<Double>)
    ensures NulFree(AsRead(w, o, scan)) == NulFree(w)
    decreases w, 0
  {
    hide NumberMeaning;
    NumberKeepsNames(w, o, scan);
    match w.data
    case Array(m) => AsReadEntriesNulFree(m, o, scan);
    case Object(m) => AsReadEntriesNulFree(m, o, scan);
    case _ =>
  }

  lemma {:induction false} AsReadEntriesNulFree(m: Entries, o: Options, scan: bytes -> Option<Double>)
    ensures NulFreeElements(AsReadEntries(m, o, scan)) == NulFreeElements(m)
    ensures NulFreeMembers(AsReadEntries(m, o, scan)) == NulFreeMembers(m)
    decreases m, 0
  {
    hide AsRead, NulFree;
    if m.Cons? {
      AsReadNulFree(m.value, o, scan);
      AsReadEntriesNulFree(m.rest, o, scan);
    }
  }

  /**
   Reading the output of a styled writer: an exception for too deep a tree, otherwise the tree as shown,
   a later member taking the place of an earlier one whose cut name is the same. This is the filled tree
   as read back, as from FastWriter's output, exactly when the writer does not cut names or there is no
   zero byte to cut at.
   */
  lemma {:induction false} StyledRoundTrip(v: Value, cut: bool, o: Options, text: bytes,
                        features: Features, scan: bytes -> Option<Double>, root: Value)
    requires Valid(v) && Storable(v, o, scan) && !o.dropNullPlaceholders
    requires Spells(TokensOf(v, cut, o), text)
    ensures
      var r := ParseDocument(Source(text, features, scan), root);
      && (r.Thrown? <==> Nest(FilledValue(v)) > 1000)
      && (r.Returned? ==>
            && Strip(r.value) == ReadBack(AsRead(Shown(FilledValue(v), cut), o, scan))
            && (Strip(r.value) == AsRead(FilledValue(v), o, scan) <==> !cut || NulFree(v))
            && (r.ok <==> !features.strictRoot || IsContainer(v.data))
            && (r.ok <==> r.errors == []))
  {
    hide Tokens, ParseDocument, DocumentText, ReadBack, CutKeys, AsRead, NulFree, Printable, Storable, Nest, Ordered;
    var w := FilledValue(v);
    var shown, s := Shown(w, cut), Source(text, features, scan);
    FilledIsPrintable(v, o, scan);
    CutPrintable(w, o, scan);
    AsReadShape(w, o, scan);
    AsReadShape(shown, o, scan);
    OrderedReadsBack(AsRead(w, o, scan));
    FilledNulFree(v);
    CutShape(w);
    CutReadsNulFree(AsRead(w, o, scan));
    AsReadNulFree(w, o, scan);
    SpelledDocument(s, shown, o);
    DocumentReads(s, AsRead(shown, o, scan), root);
  }
}
