/** Trees whose texts can be read back, and what they are read back as. */
module JsonPrintable {
  import opened Bytes
  import opened JsonNumber
  import opened JsonString
  import opened JsonValue
  import opened JsonParser
  import opened JsonFastWriter
  import opened JsonGrammar
  import opened JsonLexemes
  import opened JsonReading

  /** The text of a double is a number, and the C library finds a double in it if it is no integer. */
  ghost predicate Readable(text: bytes, scan: bytes -> Option<Double>) {
    NumberText(text, 0, |text|) && NumberMeaning(scan, text).Some?
  }

  /** What the writers can print and the reader can give back: readable doubles only, and no null strings. */
  ghost predicate Storable(v: Value, o: Options, scan: bytes -> Option<Double>) {
    match v.data
    case Real(x) => Readable(o.formatReal(x), scan)
    case Str(s) => s.Some?
    case Array(m) => StorableEntries(m, o, scan)
    case Object(m) => StorableEntries(m, o, scan)
    case _ => true
  }

  ghost predicate StorableEntries(m: Entries, o: Options, scan: bytes -> Option<Double>) {
    match m
    case Nil => true
    case Cons(_, v, rest) => Storable(v, o, scan) && StorableEntries(rest, o, scan)
  }

  /** A storable tree without missing array slots. */
  ghost predicate Printable(w: Value, o: Options, scan: bytes -> Option<Double>) {
    match w.data
    case Real(x) => Readable(o.formatReal(x), scan)
    case Str(s) => s.Some?
    case Array(m) => PrintableElements(m, 0, o, scan)
    case Object(m) => PrintableMembers(m, o, scan)
    case _ => true
  }

  ghost predicate PrintableElements(m: Entries, i: nat, o: Options, scan: bytes -> Option<Double>) {
    match m
    case Nil => true
    case Cons(k, v, rest) => k == Index(i) && Printable(v, o, scan) && PrintableElements(rest, i + 1, o, scan)
  }

  ghost predicate PrintableMembers(m: Entries, o: Options, scan: bytes -> Option<Double>) {
    match m
    case Nil => true
    case Cons(k, v, rest) => k.Name? && Printable(v, o, scan) && PrintableMembers(rest, o, scan)
  }

  /**
   The tree as it is read back: integers carry the tag their value calls for, and a double is what its
   text denotes.
   */
  function AsRead(w: Value, o: Options, scan: bytes -> Option<Double>): Value {
    Plain(match w.data
          case Int(i) => DecodedData(Retag(i))
          case UInt(u) => DecodedData(Retag(u))
          case Real(x) => (match NumberMeaning(scan, o.formatReal(x)) case Some(d) => d case None => Null)
          case Array(m) => Array(AsReadEntries(m, o, scan))
          case Object(m) => Object(AsReadEntries(m, o, scan))
          case d => d)
  }

  function AsReadEntries(m: Entries, o: Options, scan: bytes -> Option<Double>): Entries {
    match m
    case Nil => Nil
    case Cons(k, v, rest) => Cons(k, AsRead(v, o, scan), AsReadEntries(rest, o, scan))
  }

  lemma NumbersStayScalars(w: Value, o: Options, scan: bytes -> Option<Double>)
    ensures AsRead(w, o, scan).data.Array? <==> w.data.Array?
    ensures AsRead(w, o, scan).data.Object? <==> w.data.Object?
  {
  }

  /** Reading back changes neither depth nor order nor kind. */
  lemma {:induction false} AsReadShape(w: Value, o: Options, scan: bytes -> Option<Double>)
    ensures Nest(AsRead(w, o, scan)) == Nest(w) && Ordered(AsRead(w, o, scan)) == Ordered(w)
    ensures Strip(AsRead(w, o, scan)) == AsRead(w, o, scan)
    ensures IsContainer(AsRead(w, o, scan).data) == IsContainer(w.data)
    decreases w, 0
  {
    hide NumberMeaning;
    NumbersStayScalars(w, o, scan);
    match w.data
    case Array(m) => AsReadEntriesShape(m, o, scan);
    case Object(m) => AsReadEntriesShape(m, o, scan);
    case _ =>
  }

  lemma {:induction false} AsReadEntriesShape(m: Entries, o: Options, scan: bytes -> Option<Double>)
    ensures
      var n := AsReadEntries(m, o, scan);
      && NestOfEntries(n) == NestOfEntries(m) && OrderedEntries(n) == OrderedEntries(m)
      && Sorted(n) == Sorted(m) && StripEntries(n) == n
    decreases m, 0
  {
    hide AsRead, Nest, Ordered, Strip;
    if m.Cons? {
      AsReadShape(m.value, o, scan);
      AsReadEntriesShape(m.rest, o, scan);
    }
  }

  // --------------------------------------------------------------------------- Filled trees

  /** A storable tree with its missing slots filled can be printed and read back, and its names are in order. */
  lemma {:induction false} FilledIsPrintable(v: Value, o: Options, scan: bytes -> Option<Double>)
    requires Valid(v) && Storable(v, o, scan)
    ensures Printable(FilledValue(v), o, scan) && Ordered(FilledValue(v))
    decreases v, 0
  {
    hide Readable;
    match v.data
    case Array(m) => FilledElementsPrintable(m, 0, o, scan);
    case Object(m) => FilledMembersPrintable(m, o, scan);
    case _ =>
  }

  lemma {:induction false} FilledElementsPrintable(m: Entries, i: nat, o: Options, scan: bytes -> Option<Double>)
    requires FromIndex(m, i) && ValidEntries(m) && StorableEntries(m, o, scan)
    ensures PrintableElements(FilledEntries(m, i), i, o, scan) && OrderedEntries(FilledEntries(m, i))
    decreases m, 0, if m.Cons? then m.key.n - i else 0
  {
    if m.Cons? {
      if i < m.key.n {
        FilledElementsPrintable(m, i + 1, o, scan);
      } else {
        FilledIsPrintable(m.value, o, scan);
        FilledElementsPrintable(m.rest, i + 1, o, scan);
      }
    }
  }

  lemma {:induction false} FilledMembersPrintable(m: Entries, o: Options, scan: bytes -> Option<Double>)
    requires Sorted(m) && KeysOfKind(m, false) && ValidEntries(m) && StorableEntries(m, o, scan)
    ensures Sorted(FilledMembers(m)) && PrintableMembers(FilledMembers(m), o, scan)
    ensures OrderedEntries(FilledMembers(m))
    decreases m, 0
  {
    if m.Cons? {
      FilledIsPrintable(m.value, o, scan);
      FilledMembersPrintable(m.rest, o, scan);
    }
  }

  /** A tree that is a printable one as read back, up to offsets, is well formed and has nothing to fill. */
  lemma {:induction false} AsReadIsFilled(x: Value, w: Value, o: Options, scan: bytes -> Option<Double>)
    requires Printable(w, o, scan) && Ordered(w) && Strip(x) == AsRead(w, o, scan)
    ensures Valid(x) && FilledValue(x) == AsRead(w, o, scan)
    decreases w, 0
  {
    hide NumberMeaning, Readable;
    assert Strip(x).data == AsRead(w, o, scan).data;
    NumbersStayScalars(w, o, scan);
    match w.data
    case Array(m) => AsReadElementsFilled(x.data.entries, m, 0, o, scan);
    case Object(m) => AsReadMembersFilled(x.data.entries, m, o, scan);
    case _ =>
  }

  lemma {:induction false} AsReadElementsFilled(x: Entries, m: Entries, i: nat, o: Options,
                                                scan: bytes -> Option<Double>)
    requires PrintableElements(m, i, o, scan) && OrderedEntries(m) && StripEntries(x) == AsReadEntries(m, o, scan)
    ensures FromIndex(x, i) && ValidEntries(x) && FilledEntries(x, i) == AsReadEntries(m, o, scan)
    decreases m, 0
  {
    hide NumberMeaning, Readable;
    if m.Cons? {
      AsReadIsFilled(x.value, m.value, o, scan);
      AsReadElementsFilled(x.rest, m.rest, i + 1, o, scan);
    }
  }

  lemma {:induction false} AsReadMembersFilled(x: Entries, m: Entries, o: Options, scan: bytes -> Option<Double>)
    requires PrintableMembers(m, o, scan) && Sorted(m) && OrderedEntries(m)
    requires StripEntries(x) == AsReadEntries(m, o, scan)
    ensures Sorted(x) && KeysOfKind(x, false) && ValidEntries(x) && FilledMembers(x) == AsReadEntries(m, o, scan)
    decreases m, 0
  {
    hide NumberMeaning, Readable;
    if m.Cons? {
      AsReadIsFilled(x.value, m.value, o, scan);
      AsReadMembersFilled(x.rest, m.rest, o, scan);
    }
  }

  // --------------------------------------------------------------------------- Printing again

  /** What each double is read back as prints as the double did. */
  predicate Reprints(w: Value, o: Options, scan: bytes -> Option<Double>) {
    match w.data
    case Real(x) => ScalarText(AsRead(w, o, scan).data, o) == o.formatReal(x)
    case Array(m) => ReprintsEntries(m, o, scan)
    case Object(m) => ReprintsEntries(m, o, scan)
    case _ => true
  }

  predicate ReprintsEntries(m: Entries, o: Options, scan: bytes -> Option<Double>) {
    match m
    case Nil => true
    case Cons(_, v, rest) => Reprints(v, o, scan) && ReprintsEntries(rest, o, scan)
  }

  /** Re-tagging integers changes no text. */
  lemma {:induction false} AsReadText(w: Value, o: Options, scan: bytes -> Option<Double>)
    requires Printable(w, o, scan) && Reprints(w, o, scan)
    ensures FastText(AsRead(w, o, scan), o) == FastText(w, o)
    decreases w, 0
  {
    hide NumberMeaning, Readable;
    NumberIsScalar(w, o, scan);
    match w.data
    case Array(m) => AsReadElementsText(m, 0, o, scan);
    case Object(m) => AsReadMembersText(m, o, scan);
    case _ =>
  }

  lemma NumberIsScalar(w: Value, o: Options, scan: bytes -> Option<Double>)
    ensures w.data.Real? ==> FastText(AsRead(w, o, scan), o) == ScalarText(AsRead(w, o, scan).data, o)
  {
  }

  lemma {:induction false} AsReadElementsText(m: Entries, i: nat, o: Options, scan: bytes -> Option<Double>)
    requires PrintableElements(m, i, o, scan) && ReprintsEntries(m, o, scan)
    ensures ElementsText(AsReadEntries(m, o, scan), o) == ElementsText(m, o)
    decreases m, 0
  {
    hide AsRead, Printable, Reprints, FastText;
    if m.Cons? {
      AsReadText(m.value, o, scan);
      AsReadElementsText(m.rest, i + 1, o, scan);
      assert AsReadEntries(m.rest, o, scan).Cons? == m.rest.Cons?;
    }
  }

  lemma {:induction false} AsReadMembersText(m: Entries, o: Options, scan: bytes -> Option<Double>)
    requires PrintableMembers(m, o, scan) && ReprintsEntries(m, o, scan)
    ensures MembersText(AsReadEntries(m, o, scan), o) == MembersText(m, o)
    decreases m, 0
  {
    hide AsRead, Printable, Reprints, FastText;
    if m.Cons? {
      AsReadText(m.value, o, scan);
      AsReadMembersText(m.rest, o, scan);
      assert AsReadEntries(m.rest, o, scan).Cons? == m.rest.Cons?;
    }
  }

  // --------------------------------------------------------------------------- Scalars in a document

  lemma {:induction false} DigitsMoved(text: bytes, doc: bytes, a: nat, p: nat, q: nat)
    requires At(doc, a, text) && Digits(text, p, q)
    ensures Digits(doc, a + p, a + q)
  {
    forall i | a + p <= i < a + q ensures 48 <= doc[i] <= 57 {
      AtIndex(doc, a, text, i - a);
    }
  }

  /** A number standing somewhere in a document. */
  lemma {:induction false} NumberMoved(text: bytes, doc: bytes, a: nat)
    requires NumberText(text, 0, |text|) && At(doc, a, text)
    ensures NumberText(doc, a, a + |text|)
  {
    hide Digits, At;
    var f: nat, x: nat :|
      f <= x <= |text| && Digits(text, 1, f) && Fraction(text, f, x) && Exponent(text, x, |text|);
    AtIndex(doc, a, text, 0);
    DigitsMoved(text, doc, a, 1, f);
    FractionMoved(text, doc, a, f, x);
    ExponentMoved(text, doc, a, x, |text|);
    assert Digits(doc, a + 1, a + f) && Fraction(doc, a + f, a + x) && Exponent(doc, a + x, a + |text|);
  }

  lemma {:induction false} FractionMoved(text: bytes, doc: bytes, a: nat, p: nat, q: nat)
    requires At(doc, a, text) && Fraction(text, p, q)
    ensures Fraction(doc, a + p, a + q)
  {
    if p < |text| && p != q {
      AtIndex(doc, a, text, p);
      DigitsMoved(text, doc, a, p + 1, q);
    }
  }

  lemma {:induction false} ExponentMoved(text: bytes, doc: bytes, a: nat, p: nat, q: nat)
    requires At(doc, a, text) && Exponent(text, p, q)
    ensures Exponent(doc, a + p, a + q)
  {
    hide Digits;
    if p != q {
      AtIndex(doc, a, text, p);
      if Digits(text, p + 1, q) {
        DigitsMoved(text, doc, a, p + 1, q);
      } else {
        AtIndex(doc, a, text, p + 1);
        DigitsMoved(text, doc, a, p + 2, q);
      }
    }
  }

  /** The text of an integer is a number that means the integer, tagged by its size. */
  lemma {:induction false} IntegerIsNumber(i: int, scan: bytes -> Option<Double>)
    requires -TWO_63 <= i < TWO_64
    ensures NumberText(IntText(i), 0, |IntText(i)|)
    ensures NumberMeaning(scan, IntText(i)) == Some(DecodedData(Retag(i)))
  {
    hide NatValue, DecText;
    var t := IntText(i);
    assert Digits(t, 1, |t|) && Fraction(t, |t|, |t|) && Exponent(t, |t|, |t|);
    if i < 0 {
      assert t[1..] == DecText(-i);
      NatValueOfDecText(-i);
    } else {
      NatValueOfDecText(i);
    }
  }

  /** The text of a number and what it means. */
  lemma {:induction false} NumberPrinted(d: Data, o: Options, scan: bytes -> Option<Double>)
    requires IsNumber(d) && Printable(Plain(d), o, scan)
    ensures NumberText(ScalarText(d, o), 0, |ScalarText(d, o)|)
    ensures NumberMeaning(scan, ScalarText(d, o)) == Some(AsRead(Plain(d), o, scan).data)
  {
    hide NumberText, NumberMeaning, IntText, DecText;
    match d
    case Int(i) => IntegerIsNumber(i, scan);
    case UInt(u) =>
      UnsignedText(u);
      IntegerIsNumber(u, scan);
    case Real(x) =>
  }

  lemma UnsignedText(u: uint64)
    ensures IntText(u) == DecText(u)
  {
  }

  /** The text of a scalar where nothing prolongs it is a text of the scalar as it is read back. */
  lemma {:induction false} ScalarIsText(s: Source, d: Data, o: Options, a: nat)
    requires !IsContainer(d) && Printable(Plain(d), o, s.scan) && !o.dropNullPlaceholders
    requires At(s.doc, a, ScalarText(d, o))
    requires IsNumber(d) ==>
             (a + |ScalarText(d, o)| < |s.doc| ==> !NumberCharacter(s.doc[a + |ScalarText(d, o)|]))
    ensures ValueText(s, AsRead(Plain(d), o, s.scan), a, a + |ScalarText(d, o)|)
  {
    hide Quoted, NumberText, LongestNumber, NumberMeaning, PiecesAt, IntText, DecText;
    var t, q := ScalarText(d, o), a + |ScalarText(d, o)|;
    if IsNumber(d) {
      hide ScalarText, AsRead, Printable;
      NumberPrinted(d, o, s.scan);
      NumberMoved(t, s.doc, a);
      StoppedIsLongest(s.doc, a, q);
      assert s.doc[a..q] == t;
      MeaningIsNumber(s.scan, t);
      ReadPlain(d, o, s.scan);
    } else if d.Str? {
      QuotedIsLiteral(s.doc, a, d.s.value);
    }
  }

  lemma ReadPlain(d: Data, o: Options, scan: bytes -> Option<Double>)
    ensures AsRead(Plain(d), o, scan) == Plain(AsRead(Plain(d), o, scan).data)
  {
  }

  lemma {:induction false} QuotedIsLiteral(doc: bytes, a: nat, t: bytes)
    requires At(doc, a, Quoted(t))
    ensures Literal(doc, a, a + |Quoted(t)|, t)
  {
    hide EscapeText, PiecesAt;
    Peel(doc, a, [QUOTE], EscapeText(t), [QUOTE]);
    AtIndex(doc, a, [QUOTE], 0);
    AtSplit(doc, a + 1, EscapeText(t), [QUOTE]);
    AtIndex(doc, a + 1 + |EscapeText(t)|, [QUOTE], 0);
    EscapedPieces(doc, a + 1, t);
  }
}
