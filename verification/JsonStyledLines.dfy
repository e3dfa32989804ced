/**
 The white space of styled output, read off its bytes. A scan over the text keeps, for each bracket that is
 open, whether the entries inside have lines of their own, and checks every line feed and every space
 outside string literals by local rules.
 */
module JsonStyledLines {
  import opened Bytes
  import opened JsonString
  import opened JsonValue
  import opened JsonLexer
  import opened JsonFastWriter
  import opened JsonTokens
  import opened JsonStyledText

  // --------------------------------------------------------------------------- The rules

  /**
   One unit of indentation, the colon symbol, whether the bracket of a member stands behind the colon even
   if its entries have lines, and whether there are no lines at all.
   */
  datatype Rules = Rules(unit: bytes, colon: bytes, inPlace: bool, flat: bool)

  /** Three spaces and a colon between spaces for the string writer; what they are set to for the others. */
  function RulesOf(style: Style): Rules {
    match style
    case OnString => Rules([32, 32, 32], [32, 58, 32], true, false)
    case OnStream(indentation) => Rules(indentation, [32, 58, 32], false, false)
    case Built(indentation, _, colonSymbol, _, _) => Rules(indentation, colonSymbol, false, indentation == [])
  }

  function Copies(unit: bytes, n: nat): bytes {
    if n == 0 then [] else Copies(unit, n - 1) + unit
  }

  predicate Closer(c: byte) {
    c == 93 || c == 125
  }

  /** How many brackets count for the line that begins at `p`: a closing bracket is no longer inside its own. */
  function LineDepth(doc: bytes, p: nat, unit: bytes, open: nat): nat
    requires open > 0
  {
    var a := p + |Copies(unit, open - 1)|;
    if a < |doc| && Closer(doc[a]) then open - 1 else open
  }

  /** Behind the colon: a line feed only where brackets do not stay in place, and then no bracket with lines. */
  predicate AfterColon(doc: bytes, p: nat, rules: Rules) {
    || rules.flat
    || (&& (CharAt(doc, p) == 10 ==> !rules.inPlace)
        && ((CharAt(doc, p) == 91 || CharAt(doc, p) == 123) && CharAt(doc, p + 1) == 10 ==> rules.inPlace))
  }

  predicate BlankBefore(doc: bytes, p: nat)
    requires p <= |doc|
  {
    p > 0 && IsSpace(doc[p - 1])
  }

  /** One step: where the scan goes on, and which brackets are open then; nothing when a rule is broken. */
  function Next(doc: bytes, p: nat, rules: Rules, st: seq<bool>): (r: Option<(nat, seq<bool>)>)
    requires p < |doc|
    ensures r.Some? ==> p < r.value.0 <= |doc|
  {
    var c := doc[p];
    var lined := st != [] && st[|st| - 1];
    if c == 34 then
      // a literal, and the colon if it is a name
      var e := StringEnd(doc, p + 1).1;
      if !At(doc, e, rules.colon) then Some((e, st))
      else if AfterColon(doc, e + |rules.colon|, rules) then Some((e + |rules.colon|, st)) else None
    else if c == 10 then
      // exactly one unit for each open bracket
      if !lined || rules.flat then None
      else
        var line := Copies(rules.unit, LineDepth(doc, p + 1, rules.unit, |st|));
        var e := p + 1 + |line|;
        if At(doc, p + 1, line) && (e < |doc| ==> doc[e] != 32 && doc[e] != 9 && doc[e] != 13) then Some((e, st))
        else None
    else if c == 32 then
      // spaces only in arrays on one line: after the bracket and the commas, and before the bracket
      var good := if rules.flat then p > 0 && doc[p - 1] == 44
                  else
                    !lined && st != [] &&
                    ((p > 0 && (doc[p - 1] == 91 || doc[p - 1] == 44)) || CharAt(doc, p + 1) == 93);
      if good then Some((p + 1, st)) else None
    else if c == 91 || c == 123 then
      // a brace that opens no lines is closed at once
      var lines := CharAt(doc, p + 1) == 10;
      if lines || rules.flat || c == 91 || CharAt(doc, p + 1) == 125 then Some((p + 1, st + [lines])) else None
    else if c == 93 || c == 125 then
      // a closing bracket begins its line, or stands behind a space or its own opening bracket
      var good := st != [] &&
                  (rules.flat || (if lined then BlankBefore(doc, p)
                                  else p > 0 && (doc[p - 1] == c - 2 || (c == 93 && doc[p - 1] == 32))));
      if good then Some((p + 1, st[..|st| - 1])) else None
    else if c == 44 then
      // a line feed or a space after each comma
      var good := st != [] && (rules.flat || CharAt(doc, p + 1) == if lined then 10 else 32);
      if good then Some((p + 1, st)) else None
    else if c == 9 || c == 13 || c == 58 then None
    else Some((p + 1, st))
  }

  /** The scan from `p` to `q`. */
  function Scan(doc: bytes, p: nat, q: nat, rules: Rules, st: seq<bool>): Option<seq<bool>>
    requires p <= |doc|
    decreases |doc| - p
  {
    if p == q then Some(st)
    else if p > q || p == |doc| then None
    else
      match Next(doc, p, rules, st)
      case None => None
      case Some(next) => Scan(doc, next.0, q, rules, next.1)
  }

  /** Every rule is kept throughout the text, and every bracket closed. */
  predicate LaidOut(text: bytes, rules: Rules) {
    Scan(text, 0, |text|, rules, []) == Some([])
  }

  // --------------------------------------------------------------------------- Putting scans together

  lemma {:induction false} ScanJoin(doc: bytes, p: nat, m: nat, q: nat, rules: Rules, st: seq<bool>, s1: seq<bool>)
    requires p <= |doc| && m <= |doc| && m <= q && Scan(doc, p, m, rules, st) == Some(s1)
    ensures Scan(doc, p, q, rules, st) == Scan(doc, m, q, rules, s1)
    decreases |doc| - p
  {
    hide Next;
    if p != m {
      var next := Next(doc, p, rules, st).value;
      assert p < m;
      ScanJoin(doc, next.0, m, q, rules, next.1, s1);
    }
  }

  lemma {:induction false} ScanOne(doc: bytes, p: nat, q: nat, rules: Rules, st: seq<bool>, s1: seq<bool>)
    requires p < |doc| && Next(doc, p, rules, st) == Some((q, s1))
    ensures p < q <= |doc| && Scan(doc, p, q, rules, st) == Some(s1)
  {
    hide Next;
    assert Scan(doc, q, q, rules, s1) == Some(s1);
  }

  predicate PlainByte(c: byte) {
    c !in {9, 10, 13, 32, 34, 44, 58, 91, 93, 123, 125}
  }

  predicate PlainBytes(t: bytes) {
    forall i :: 0 <= i < |t| ==> PlainByte(t[i])
  }

  /** Formatted doubles have none of the characters that mean something here. */
  ghost predicate FormatsPlain(o: Options) {
    forall d :: PlainBytes(o.formatReal(d))
  }

  lemma {:induction false} ScanPlain(doc: bytes, p: nat, t: bytes, rules: Rules, st: seq<bool>)
    requires At(doc, p, t) && PlainBytes(t)
    ensures Scan(doc, p, p + |t|, rules, st) == Some(st)
    decreases |t|
  {
    hide At;
    if t == [] {
      AtEmpty(doc, p);
    } else {
      AtIndex(doc, p, t, 0);
      assert t == [t[0]] + t[1..];
      AtSplit(doc, p, [t[0]], t[1..]);
      ScanOne(doc, p, p + 1, rules, st, st);
      ScanPlain(doc, p + 1, t[1..], rules, st);
      ScanJoin(doc, p, p + 1, p + |t|, rules, st, st);
    }
  }

  lemma AtEmpty(doc: bytes, p: nat)
    requires At(doc, p, [])
    ensures p <= |doc|
  {
  }

  // --------------------------------------------------------------------------- Literals

  /** The first character after white space. */
  function NextChar(doc: bytes, p: nat): byte
    requires p <= |doc|
  {
    CharAt(doc, SkipSpaces(doc, p))
  }

  lemma {:induction false} ColonComesFirst(doc: bytes, p: nat, colon: bytes)
    requires p <= |doc| && Spells([[COLON]], colon) && At(doc, p, colon)
    ensures NextChar(doc, p) == 58
  {
    hide SkipSpaces;
    var z := SkipSpaces(colon, 0);
    AtIndex(colon, z, [COLON], 0);
    SkipWithin(doc, p, colon, 0);
    AtIndex(doc, p, colon, z);
  }

  lemma {:induction false} SkipWithin(doc: bytes, p: nat, t: bytes, i: nat)
    requires At(doc, p, t) && i <= |t| && SkipSpaces(t, i) < |t|
    ensures p + i <= |doc| && SkipSpaces(doc, p + i) == p + SkipSpaces(t, i)
    decreases |t| - i
  {
    hide At;
    AtIndex(doc, p, t, i);
    if IsSpace(t[i]) {
      SkipWithin(doc, p, t, i + 1);
    }
  }

  /** A literal that is no name. */
  lemma {:induction false} ScanString(doc: bytes, p: nat, s: bytes, rules: Rules, st: seq<bool>)
    requires At(doc, p, Quoted(s)) && p + |Quoted(s)| <= |doc| && !At(doc, p + |Quoted(s)|, rules.colon)
    ensures Scan(doc, p, p + |Quoted(s)|, rules, st) == Some(st)
  {
    hide EscapeText, StringEnd, DecodeText;
    LiteralEnds(doc, p, s);
    ScanOne(doc, p, p + |Quoted(s)|, rules, st, st);
  }

  lemma {:induction false} LiteralEnds(doc: bytes, p: nat, s: bytes)
    requires At(doc, p, Quoted(s))
    ensures p + |Quoted(s)| <= |doc| && doc[p] == 34 && StringEnd(doc, p + 1) == (true, p + |Quoted(s)|)
  {
    hide EscapeText, StringEnd, DecodeText;
    assert Quoted(s) == [QUOTE] + (EscapeText(s) + [QUOTE]);
    AtSplit(doc, p, [QUOTE], EscapeText(s) + [QUOTE]);
    AtIndex(doc, p, [QUOTE], 0);
    EscapedTextReadsBack(doc, p + 1, s, p + 1 + |EscapeText(s)|);
  }

  /** A name and its colon. */
  lemma {:induction false} ScanName(doc: bytes, p: nat, s: bytes, rules: Rules, st: seq<bool>)
    requires At(doc, p, Quoted(s) + rules.colon)
    requires AfterColon(doc, p + |Quoted(s)| + |rules.colon|, rules)
    ensures p + |Quoted(s)| + |rules.colon| <= |doc|
    ensures Scan(doc, p, p + |Quoted(s)| + |rules.colon|, rules, st) == Some(st)
  {
    hide Quoted, StringEnd, AfterColon;
    AtSplit(doc, p, Quoted(s), rules.colon);
    LiteralEnds(doc, p, s);
    ScanOne(doc, p, p + |Quoted(s)| + |rules.colon|, rules, st, st);
  }

  lemma ScanNothing(doc: bytes, p: nat, rules: Rules, st: seq<bool>)
    requires p <= |doc|
    ensures Scan(doc, p, p, rules, st) == Some(st)
  {
  }

  lemma AtLong(doc: bytes, p: nat, t: bytes)
    requires At(doc, p, t)
    ensures p + |t| <= |doc|
  {
  }

  // --------------------------------------------------------------------------- Line breaks

  lemma {:induction false} CopiesAreBlank(unit: bytes, n: nat)
    requires AllSpaces(unit)
    ensures AllSpaces(Copies(unit, n))
  {
    if n > 0 {
      CopiesAreBlank(unit, n - 1);
    }
  }

  /** A new line at depth `n`: for an entry, or for the bracket that closes it. */
  lemma {:induction false} ScanBreak(style: Style, doc: bytes, p: nat, n: nat, st: seq<bool>)
    requires style.Valid() && At(doc, p, NewLine(style, Copies(RulesOf(style).unit, n)))
    requires
      var rules, q := RulesOf(style), p + |NewLine(style, Copies(RulesOf(style).unit, n))|;
      rules.flat ||
      (&& st != [] && st[|st| - 1]
       && (if n == |st| then q < |doc| ==> doc[q] !in {32, 9, 13, 93, 125}
           else n == |st| - 1 && q < |doc| && Closer(doc[q])))
    ensures
      var q := p + |NewLine(style, Copies(RulesOf(style).unit, n))|;
      q <= |doc| && Scan(doc, p, q, RulesOf(style), st) == Some(st)
  {
    hide Spells, Copies, LineDepth, At, Scan, Next;
    var rules := RulesOf(style);
    if rules.flat {
      assert NewLine(style, Copies(rules.unit, n)) == [];
      AtEmpty(doc, p);
      ScanNothing(doc, p, rules, st);
    } else {
      var line := Copies(rules.unit, n);
      assert NewLine(style, line) == [LINE_FEED] + line;
      AtSplit(doc, p, [LINE_FEED], line);
      AtIndex(doc, p, [LINE_FEED], 0);
      AtLong(doc, p + 1, line);
      DepthOfLine(style, doc, p + 1, n, |st|);
      LineStep(doc, p, rules, st, n);
      ScanOne(doc, p, p + 1 + |line|, rules, st, st);
    }
  }

  lemma {:induction false} LineStep(doc: bytes, p: nat, rules: Rules, st: seq<bool>, n: nat)
    requires p < |doc| && doc[p] == 10 && !rules.flat && st != [] && st[|st| - 1]
    requires LineDepth(doc, p + 1, rules.unit, |st|) == n && At(doc, p + 1, Copies(rules.unit, n))
    requires var e := p + 1 + |Copies(rules.unit, n)|; e < |doc| ==> doc[e] != 32 && doc[e] != 9 && doc[e] != 13
    ensures Next(doc, p, rules, st) == Some((p + 1 + |Copies(rules.unit, n)|, st))
  {
    hide Copies, LineDepth, At;
  }

  lemma {:induction false} DepthOfLine(style: Style, doc: bytes, p: nat, n: nat, open: nat)
    requires style.Valid() && At(doc, p, Copies(RulesOf(style).unit, n)) && open > 0
    requires
      var q := p + |Copies(RulesOf(style).unit, n)|;
      if n == open then q < |doc| ==> !Closer(doc[q]) else n == open - 1 && q < |doc| && Closer(doc[q])
    ensures LineDepth(doc, p, RulesOf(style).unit, open) == n
  {
    hide Spells;
    var unit := RulesOf(style).unit;
    if n == open {
      CopiesAreBlank(unit, n);
      var inner := Copies(unit, open - 1);
      assert Copies(unit, open) == inner + unit;
      if unit != [] {
        AtIndex(doc, p, Copies(unit, open), |inner|);
        assert IsSpace(Copies(unit, open)[|inner|]);
      }
    }
  }

  // --------------------------------------------------------------------------- Leaves

  /** After a value: the end, a comma, or a line feed; without lines also a closing bracket. No colon follows. */
  predicate Ends(doc: bytes, e: nat, rules: Rules) {
    && e <= |doc| && NextChar(doc, e) != 58
    && (e == |doc| || doc[e] == 44 || doc[e] == 10 || (rules.flat && Closer(doc[e])))
  }

  lemma {:induction false} NoColonHere(style: Style, doc: bytes, e: nat)
    requires style.Valid() && e <= |doc| && NextChar(doc, e) != 58
    ensures !At(doc, e, RulesOf(style).colon)
  {
    hide Spells, NextChar, At;
    if At(doc, e, RulesOf(style).colon) {
      ColonComesFirst(doc, e, RulesOf(style).colon);
    }
  }

  lemma {:induction false} EmptyBrackets(doc: bytes, p: nat, open: byte, rules: Rules, st: seq<bool>)
    requires (open == 91 || open == 123) && At(doc, p, [open, open + 2])
    ensures p + 2 <= |doc| && Scan(doc, p, p + 2, rules, st) == Some(st)
  {
    AtIndex(doc, p, [open, open + 2], 0);
    AtIndex(doc, p, [open, open + 2], 1);
    var inner := st + [false];
    assert inner[..|inner| - 1] == st;
    ScanOne(doc, p, p + 1, rules, st, inner);
    ScanOne(doc, p + 1, p + 2, rules, inner, st);
    ScanJoin(doc, p, p + 1, p + 2, rules, st, inner);
  }

  lemma {:induction false} ScalarsArePlain(d: Data, o: Options)
    requires FormatsPlain(o) && !d.Array? && !d.Object?
    ensures PlainBytes(ScalarText(d, o)) || (d.Str? && d.s.Some? && ScalarText(d, o) == Quoted(d.s.value))
  {
    hide Quoted;
    assert forall c: byte :: IsDigit(c) ==> PlainByte(c);
  }

  lemma {:induction false} ScanScalar(style: Style, d: Data, o: Options, doc: bytes, p: nat, st: seq<bool>)
    requires style.Valid() && FormatsPlain(o) && !d.Array? && !d.Object? && At(doc, p, ScalarText(d, o))
    requires p + |ScalarText(d, o)| <= |doc| && NextChar(doc, p + |ScalarText(d, o)|) != 58
    ensures Scan(doc, p, p + |ScalarText(d, o)|, RulesOf(style), st) == Some(st)
  {
    hide Spells, Quoted, NextChar, ScalarText, Scan, At, PlainBytes;
    NoColonHere(style, doc, p + |ScalarText(d, o)|);
    ScalarsArePlain(d, o);
    if PlainBytes(ScalarText(d, o)) {
      ScanPlain(doc, p, ScalarText(d, o), RulesOf(style), st);
    } else {
      ScanString(doc, p, d.s.value, RulesOf(style), st);
    }
  }

  /** A leaf, wherever it stands. */
  lemma {:induction false} ScanLeaf(style: Style, w: Value, o: Options, doc: bytes, p: nat, st: seq<bool>)
    requires style.Valid() && FormatsPlain(o) && IsLeaf(w) && At(doc, p, LeafText(w, o))
    requires p + |LeafText(w, o)| <= |doc| && NextChar(doc, p + |LeafText(w, o)|) != 58
    ensures Scan(doc, p, p + |LeafText(w, o)|, RulesOf(style), st) == Some(st)
  {
    hide Spells, NextChar, ScalarText, Scan, At;
    match w.data
    case Array(_) => EmptyBrackets(doc, p, 91, RulesOf(style), st);
    case Object(_) => EmptyBrackets(doc, p, 123, RulesOf(style), st);
    case d => ScanScalar(style, d, o, doc, p, st);
  }

  // --------------------------------------------------------------------------- Arrays on one line

  lemma {:induction false} PlainChar(doc: bytes, p: nat)
    requires p < |doc| && !IsSpace(doc[p])
    ensures NextChar(doc, p) == doc[p]
  {
  }

  lemma {:induction false} PadThenBracket(doc: bytes, p: nat, pad: bytes)
    requires At(doc, p, pad + [93]) && (pad == [] || pad == [32])
    ensures p < |doc| && NextChar(doc, p) == 93
  {
    AtIndex(doc, p, pad + [93], 0);
    AtIndex(doc, p, pad + [93], |pad|);
    if pad == [32] {
      assert SkipSpaces(doc, p) == SkipSpaces(doc, p + 1) == p + 1;
    }
  }

  /** The leaves of a one-line array with what follows them. */
  lemma {:induction false} ScanJoined(style: Style, m: Entries, o: Options, doc: bytes, p: nat, st: seq<bool>)
    requires style.Valid() && FormatsPlain(o) && AllLeaves(m) && m.Cons?
    requires At(doc, p, Joined(m, o) + (style.Padding() + [93]))
    requires st != [] && (RulesOf(style).flat || !st[|st| - 1])
    ensures p + |Joined(m, o)| <= |doc| && Scan(doc, p, p + |Joined(m, o)|, RulesOf(style), st) == Some(st)
    decreases m
  {
    hide Spells, LeafText, IsLeaf, At, NextChar, Next, Scan, FormatsPlain, AllSpaces;
    var rules, leaf, close := RulesOf(style), LeafText(m.value, o), style.Padding() + [93];
    var e := p + |leaf|;
    JoinedPieces(m, o, close, doc, p);
    hide Joined;
    if m.rest.Nil? {
      PadThenBracket(doc, e, style.Padding());
      ScanLeaf(style, m.value, o, doc, p, st);
    } else {
      ScanSeparator(doc, e, rules, st);
      ScanLeaf(style, m.value, o, doc, p, st);
      ScanJoined(style, m.rest, o, doc, e + 2, st);
      ScanJoin(doc, e, e + 2, p + |Joined(m, o)|, rules, st, st);
      ScanJoin(doc, p, e, p + |Joined(m, o)|, rules, st, st);
    }
  }

  /** The pieces of the leaves and what follows them. */
  lemma {:induction false} JoinedPieces(m: Entries, o: Options, close: bytes, doc: bytes, p: nat)
    requires m.Cons? && At(doc, p, Joined(m, o) + close)
    ensures
      var leaf := LeafText(m.value, o);
      var e := p + |leaf|;
      && e <= |doc| && At(doc, p, leaf)
      && (m.rest.Nil? ==> At(doc, e, close))
      && (m.rest.Cons? ==> At(doc, e, [COMMA, SPACE]) && At(doc, e + 2, Joined(m.rest, o) + close))
      && |Joined(m, o)| == |leaf| + if m.rest.Nil? then 0 else 2 + |Joined(m.rest, o)|
  {
    hide LeafText, At;
    JoinedSplit(m, o, close);
    hide Joined;
    var leaf, later := LeafText(m.value, o), Joined(m.rest, o) + close;
    var tail := if m.rest.Nil? then close else [COMMA, SPACE] + later;
    AtSplit(doc, p, leaf, tail);
    AtLong(doc, p, leaf);
    if m.rest.Cons? {
      AtSplit(doc, p + |leaf|, [COMMA, SPACE], later);
    }
  }

  lemma {:induction false} JoinedSplit(m: Entries, o: Options, close: bytes)
    requires m.Cons?
    ensures Joined(m, o) + close ==
            LeafText(m.value, o) +
            (if m.rest.Nil? then close else [COMMA, SPACE] + (Joined(m.rest, o) + close))
    ensures |Joined(m, o)| == |LeafText(m.value, o)| + if m.rest.Nil? then 0 else 2 + |Joined(m.rest, o)|
  {
    hide LeafText;
    if m.rest.Nil? {
      assert Joined(m.rest, o) == [];
    }
  }

  lemma {:induction false} ScanSeparator(doc: bytes, p: nat, rules: Rules, st: seq<bool>)
    requires At(doc, p, [COMMA, SPACE]) && st != [] && (rules.flat || !st[|st| - 1])
    ensures p + 2 <= |doc| && NextChar(doc, p) == 44 && Scan(doc, p, p + 2, rules, st) == Some(st)
  {
    AtIndex(doc, p, [COMMA, SPACE], 0);
    AtIndex(doc, p, [COMMA, SPACE], 1);
    PlainChar(doc, p);
    ScanOne(doc, p, p + 1, rules, st, st);
    ScanOne(doc, p + 1, p + 2, rules, st, st);
    ScanJoin(doc, p, p + 1, p + 2, rules, st, st);
  }

  /** One space inside each bracket of a one-line array; none without lines. */
  lemma {:induction false} ScanPad(style: Style, doc: bytes, p: nat, st: seq<bool>)
    requires At(doc, p, style.Padding()) && st != [] && (RulesOf(style).flat || !st[|st| - 1])
    requires CharAt(doc, p + |style.Padding()|) == 93 || (0 < p <= |doc| && doc[p - 1] == 91)
    ensures p + |style.Padding()| <= |doc|
    ensures Scan(doc, p, p + |style.Padding()|, RulesOf(style), st) == Some(st)
  {
    if style.Padding() != [] {
      AtIndex(doc, p, [SPACE], 0);
      ScanOne(doc, p, p + 1, RulesOf(style), st, st);
    }
  }

  lemma {:induction false} ScanOneLine(style: Style, m: Entries, o: Options, doc: bytes, p: nat, st: seq<bool>)
    requires style.Valid() && FormatsPlain(o) && AllLeaves(m) && m.Cons?
    requires At(doc, p, [LEFT_BRACKET] + style.Padding() + Joined(m, o) + style.Padding() + [RIGHT_BRACKET])
    ensures
      var e := p + |[LEFT_BRACKET] + style.Padding() + Joined(m, o) + style.Padding() + [RIGHT_BRACKET]|;
      e <= |doc| && Scan(doc, p, e, RulesOf(style), st) == Some(st)
  {
    hide Spells, Joined, At, Next, Scan, AllLeaves, FormatsPlain, AllSpaces;
    var rules, pad, body := RulesOf(style), style.Padding(), Joined(m, o);
    OneLineParts(doc, p, pad, body);
    var b := p + 1 + |pad|;
    var c := b + |body| + |pad|;
    var lines := CharAt(doc, p + 1) == 10;
    var inner := st + [lines];
    OpensOneLine(style, doc, p, st);
    ScanPad(style, doc, p + 1, inner);
    ScanJoined(style, m, o, doc, b, inner);
    ScanPad(style, doc, b + |body|, inner);
    ClosesOneLine(style, doc, c, st, lines);
    ScanJoin(doc, b + |body|, c, c + 1, rules, inner, inner);
    ScanJoin(doc, b, b + |body|, c + 1, rules, inner, inner);
    ScanJoin(doc, p + 1, b, c + 1, rules, inner, inner);
    ScanJoin(doc, p, p + 1, c + 1, rules, st, inner);
  }

  lemma {:induction false} OneLineParts(doc: bytes, p: nat, pad: bytes, body: bytes)
    requires At(doc, p, [LEFT_BRACKET] + pad + body + pad + [RIGHT_BRACKET])
    ensures
      var b := p + 1 + |pad|;
      var c := b + |body| + |pad|;
      && c < |doc| && doc[p] == 91 && At(doc, p + 1, pad) && At(doc, b, body + (pad + [93]))
      && At(doc, b + |body|, pad) && doc[c] == 93 && (pad == [32] ==> doc[c - 1] == 32)
  {
    hide At;
    assert [LEFT_BRACKET] + pad + body + pad + [RIGHT_BRACKET] == [91] + (pad + (body + (pad + [93])));
    AtSplit(doc, p, [91], pad + (body + (pad + [93])));
    AtIndex(doc, p, [91], 0);
    AtSplit(doc, p + 1, pad, body + (pad + [93]));
    var b := p + 1 + |pad|;
    AtSplit(doc, b, body, pad + [93]);
    AtSplit(doc, b + |body|, pad, [93]);
    AtIndex(doc, b + |body| + |pad|, [93], 0);
    if pad == [32] {
      AtIndex(doc, b + |body|, pad, 0);
    }
  }

  lemma {:induction false} OpensOneLine(style: Style, doc: bytes, p: nat, st: seq<bool>)
    requires p < |doc| && doc[p] == 91 && At(doc, p + 1, style.Padding())
    ensures
      var lines := CharAt(doc, p + 1) == 10;
      && (RulesOf(style).flat || !lines)
      && Scan(doc, p, p + 1, RulesOf(style), st) == Some(st + [lines])
  {
    if style.Padding() != [] {
      AtIndex(doc, p + 1, style.Padding(), 0);
    }
    ScanOne(doc, p, p + 1, RulesOf(style), st, st + [CharAt(doc, p + 1) == 10]);
  }

  lemma {:induction false} ClosesOneLine(style: Style, doc: bytes, c: nat, st: seq<bool>, lines: bool)
    requires c < |doc| && doc[c] == 93 && (RulesOf(style).flat || !lines)
    requires style.Padding() != [] ==> c > 0 && doc[c - 1] == 32
    ensures Scan(doc, c, c + 1, RulesOf(style), st + [lines]) == Some(st)
  {
    var inner := st + [lines];
    assert inner[..|inner| - 1] == st;
    ScanOne(doc, c, c + 1, RulesOf(style), inner, st);
  }

  // --------------------------------------------------------------------------- How a value begins

  /** Neither white space nor punctuation other than an opening bracket or a quote. */
  predicate Opens(c: byte) {
    c !in {9, 10, 13, 32, 44, 58, 93, 125}
  }

  /** Nothing, or a character that opens a value, or for a member the line feed before its bracket. */
  predicate Begins(text: bytes, rules: Rules, isMember: bool) {
    text != [] ==>
      && (if isMember && !rules.inPlace && !rules.flat then Opens(text[0]) || text[0] == 10 else Opens(text[0]))
      && (isMember && !rules.inPlace && !rules.flat && (text[0] == 91 || text[0] == 123) ==>
            |text| >= 2 && text[1] != 10)
  }

  lemma {:induction false} LeafBegins(w: Value, o: Options, rules: Rules, isMember: bool)
    requires FormatsPlain(o) && IsLeaf(w)
    ensures Begins(LeafText(w, o), rules, isMember)
  {
    hide ScalarText;
    if !w.data.Array? && !w.data.Object? {
      ScalarsArePlain(w.data, o);
      if !PlainBytes(ScalarText(w.data, o)) {
        QuotedBegins(w.data.s.value);
      }
    }
  }

  lemma {:induction false} OneLineBegins(style: Style, m: Entries, o: Options, isMember: bool)
    ensures Begins([LEFT_BRACKET] + style.Padding() + Joined(m, o) + style.Padding() + [RIGHT_BRACKET],
                   RulesOf(style), isMember)
  {
    hide Joined;
    var text := [LEFT_BRACKET] + style.Padding() + Joined(m, o) + style.Padding() + [RIGHT_BRACKET];
    assert text[0] == 91;
    if style.Padding() == [SPACE] {
      assert text[1] == 32;
    }
  }

  lemma {:induction false} LinesBegin(style: Style, indent: bytes, isMember: bool, open: byte, rest: bytes)
    requires open == 91 || open == 123
    ensures Begins(Opening(style, indent, isMember) + [open] + rest, RulesOf(style), isMember)
  {
    var text := Opening(style, indent, isMember) + [open] + rest;
    assert text[0] == if Opening(style, indent, isMember) == [] then open else 10;
  }

  lemma {:induction false} ValueBegins(style: Style, w: Value, o: Options, indent: bytes, isMember: bool)
    requires FormatsPlain(o)
    ensures Begins(StyledText(style, w, o, indent, isMember), RulesOf(style), isMember)
    ensures Showing(w, o) ==> StyledText(style, w, o, indent, isMember) != []
  {
    hide Begins, Opening, NewLine, Joined, ElementLines, MemberLines, TakesLines, LeafText, FormatsPlain;
    if IsLeaf(w) {
      LeafBegins(w, o, RulesOf(style), isMember);
    } else if w.data.Object? {
      var m := w.data.entries;
      var rest := MemberLines(style, m, o, indent + style.Unit()) + (NewLine(style, indent) + [RIGHT_BRACE]);
      LinesBegin(style, indent, isMember, 123, rest);
      assert StyledText(style, w, o, indent, isMember) == Opening(style, indent, isMember) + [123] + rest;
    } else {
      var m := w.data.entries;
      if TakesLines(style, m, o) {
        var rest := ElementLines(style, m, o, indent + style.Unit()) + (NewLine(style, indent) + [RIGHT_BRACKET]);
        LinesBegin(style, indent, isMember, 91, rest);
        assert StyledText(style, w, o, indent, isMember) == Opening(style, indent, isMember) + [91] + rest;
      } else {
        OneLineBegins(style, m, o, isMember);
      }
    }
  }

  // --------------------------------------------------------------------------- Containers with lines

  /** Where lines may stand. */
  predicate InLines(rules: Rules, st: seq<bool>) {
    rules.flat || (st != [] && st[|st| - 1])
  }

  /** What may follow the name and the colon of a member: its value, and then what follows that. */
  lemma {:induction false} ColonThenValue(style: Style, text: bytes, doc: bytes, p: nat)
    requires At(doc, p, text) && Begins(text, RulesOf(style), true) && p + |text| <= |doc|
    requires Ends(doc, p + |text|, RulesOf(style)) && (style.OnString? ==> text != [])
    ensures AfterColon(doc, p, RulesOf(style))
  {
    hide NextChar;
    if text != [] {
      AtIndex(doc, p, text, 0);
      if |text| >= 2 {
        AtIndex(doc, p, text, 1);
      }
    }
  }

  lemma {:induction false} CommaFollows(doc: bytes, p: nat, rules: Rules, st: seq<bool>)
    requires p < |doc| && doc[p] == 44 && st != [] && InLines(rules, st)
    requires rules.flat || CharAt(doc, p + 1) == 10
    ensures Ends(doc, p, rules) && Scan(doc, p, p + 1, rules, st) == Some(st)
  {
    PlainChar(doc, p);
    ScanOne(doc, p, p + 1, rules, st, st);
  }

  /** The indentation of a line, and what stands behind it. */
  lemma {:induction false} LineStarts(style: Style, text: bytes, k: nat, doc: bytes, p: nat, st: seq<bool>)
    requires style.Valid() && k == |st| && InLines(RulesOf(style), st)
    requires At(doc, p, NewLine(style, Copies(RulesOf(style).unit, k)) + text)
    requires
      var q := p + |NewLine(style, Copies(RulesOf(style).unit, k))|;
      if text == [] then q <= |doc| && Ends(doc, q, RulesOf(style)) else Opens(text[0])
    ensures
      var q := p + |NewLine(style, Copies(RulesOf(style).unit, k))|;
      && q <= |doc| && At(doc, q, text) && Scan(doc, p, q, RulesOf(style), st) == Some(st)
  {
    hide Copies, Scan, NextChar, NewLine, At, Spells;
    var line := NewLine(style, Copies(RulesOf(style).unit, k));
    AtSplit(doc, p, line, text);
    if text != [] {
      AtIndex(doc, p + |line|, text, 0);
    }
    ScanBreak(style, doc, p, k, st);
  }

  /** The bracket before lines; for a member it may have a line of its own. */
  lemma {:induction false} ScanOpening(style: Style, k: nat, isMember: bool, open: byte, doc: bytes, p: nat,
                                       st: seq<bool>)
    requires style.Valid() && k == |st| && (isMember ==> InLines(RulesOf(style), st))
    requires open == 91 || open == 123
    requires At(doc, p, Opening(style, Copies(RulesOf(style).unit, k), isMember) + [open])
    requires
      var q := p + |Opening(style, Copies(RulesOf(style).unit, k), isMember)| + 1;
      RulesOf(style).flat || CharAt(doc, q) == 10
    ensures
      var q := p + |Opening(style, Copies(RulesOf(style).unit, k), isMember)| + 1;
      q <= |doc| && Scan(doc, p, q, RulesOf(style), st) == Some(st + [CharAt(doc, q) == 10])
  {
    hide Copies, Scan, NewLine, At, Spells;
    var line := Opening(style, Copies(RulesOf(style).unit, k), isMember);
    var q := p + |line|;
    AtSplit(doc, p, line, [open]);
    AtIndex(doc, q, [open], 0);
    if isMember && !style.OnString? {
      ScanBreak(style, doc, p, k, st);
    } else {
      assert Scan(doc, p, q, RulesOf(style), st) == Some(st) by {
        ScanNothing(doc, p, RulesOf(style), st);
      }
    }
    ScanOne(doc, q, q + 1, RulesOf(style), st, st + [CharAt(doc, q + 1) == 10]);
    ScanJoin(doc, p, q, q + 1, RulesOf(style), st, st);
  }

  /** The line of the bracket behind lines. */
  lemma {:induction false} ScanClosing(style: Style, k: nat, close: byte, doc: bytes, p: nat, st: seq<bool>,
                                       lines: bool)
    requires style.Valid() && k == |st| && (RulesOf(style).flat || lines)
    requires Closer(close) && At(doc, p, NewLine(style, Copies(RulesOf(style).unit, k)) + [close])
    ensures
      var q := p + |NewLine(style, Copies(RulesOf(style).unit, k))| + 1;
      q <= |doc| && Scan(doc, p, q, RulesOf(style), st + [lines]) == Some(st)
  {
    hide Copies, Scan, At, Spells;
    var line := NewLine(style, Copies(RulesOf(style).unit, k));
    var q, inner := p + |line|, st + [lines];
    assert inner[..|inner| - 1] == st;
    AtSplit(doc, p, line, [close]);
    AtIndex(doc, q, [close], 0);
    ScanBreak(style, doc, p, k, inner);
    if line != [] {
      CopiesAreBlank(RulesOf(style).unit, k);
      AtIndex(doc, p, line, |line| - 1);
      assert IsSpace(line[|line| - 1]);
    }
    ScanOne(doc, q, q + 1, RulesOf(style), inner, st);
    ScanJoin(doc, p, q, q + 1, RulesOf(style), inner, inner);
  }

  /** Lines begin with a line feed, and a line feed before a closing bracket ends what is before it. */
  lemma {:induction false} BreakFirst(style: Style, indent: bytes, rest: bytes, doc: bytes, p: nat)
    requires At(doc, p, NewLine(style, indent) + rest)
    ensures p <= |doc| && (RulesOf(style).flat || CharAt(doc, p) == 10)
  {
    if !RulesOf(style).flat {
      AtIndex(doc, p, NewLine(style, indent) + rest, 0);
    }
  }

  lemma {:induction false} ClosingEnds(style: Style, k: nat, close: byte, doc: bytes, p: nat)
    requires style.Valid() && Closer(close) && At(doc, p, NewLine(style, Copies(RulesOf(style).unit, k)) + [close])
    ensures Ends(doc, p, RulesOf(style))
  {
    hide Copies, At, Spells, SkipSpaces;
    var line := NewLine(style, Copies(RulesOf(style).unit, k));
    CopiesAreBlank(RulesOf(style).unit, k);
    BreakFirst(style, Copies(RulesOf(style).unit, k), [close], doc, p);
    AtSplit(doc, p, line, [close]);
    AtIndex(doc, p + |line|, [close], 0);
    BlankThen(doc, p, line);
  }

  lemma {:induction false} BlankThen(doc: bytes, p: nat, line: bytes)
    requires At(doc, p, line) && AllSpaces(line) && p + |line| < |doc| && !IsSpace(doc[p + |line|])
    ensures p <= |doc| && NextChar(doc, p) == doc[p + |line|]
    decreases |line|
  {
    hide At;
    AtLong(doc, p, line);
    if line != [] {
      AtIndex(doc, p, line, 0);
      assert line == [line[0]] + line[1..];
      AtSplit(doc, p, [line[0]], line[1..]);
      BlankThen(doc, p + 1, line[1..]);
    }
  }

  // --------------------------------------------------------------------------- Values

  /** A comma and more lines, or what follows the last line. */
  lemma {:induction false} AfterEntry(style: Style, more: bool, later: bytes, k: nat, rest: bytes, doc: bytes, p: nat,
                                      st: seq<bool>)
    requires st != [] && InLines(RulesOf(style), st) && At(doc, p, CommaIf(more) + later)
    requires if more then later == NewLine(style, Copies(RulesOf(style).unit, k)) + rest
             else later == [] && p <= |doc| && Ends(doc, p, RulesOf(style))
    ensures p + |CommaIf(more)| <= |doc| && Ends(doc, p, RulesOf(style))
    ensures At(doc, p + |CommaIf(more)|, later)
    ensures Scan(doc, p, p + |CommaIf(more)|, RulesOf(style), st) == Some(st)
  {
    hide Copies, Scan, At, NextChar, NewLine;
    AtSplit(doc, p, CommaIf(more), later);
    if more {
      AtIndex(doc, p, [COMMA], 0);
      BreakFirst(style, Copies(RulesOf(style).unit, k), rest, doc, p + 1);
      CommaFollows(doc, p, RulesOf(style), st);
    } else {
      ScanNothing(doc, p, RulesOf(style), st);
    }
  }

  /** The parts of one line and what follows it. */
  lemma {:induction false} LineParts(doc: bytes, p: nat, line: bytes, text: bytes, comma: bytes, later: bytes)
    requires At(doc, p, line + (text + (comma + later)))
    ensures At(doc, p, line + text) && At(doc, p + |line| + |text|, comma + later)
  {
    hide At;
    assert line + text + (comma + later) == line + (text + (comma + later));
    AtSplit(doc, p, line + text, comma + later);
  }

  /** The scans of the parts make the scan of the whole. */
  lemma {:induction false} ScanThree(doc: bytes, p: nat, q1: nat, q2: nat, q3: nat, e: nat, rules: Rules, st: seq<bool>)
    requires p <= q1 <= q2 <= q3 <= e <= |doc|
    requires Scan(doc, p, q1, rules, st) == Some(st) && Scan(doc, q1, q2, rules, st) == Some(st)
    requires Scan(doc, q2, q3, rules, st) == Some(st) && Scan(doc, q3, e, rules, st) == Some(st)
    ensures Scan(doc, p, e, rules, st) == Some(st)
  {
    hide Scan;
    ScanJoin(doc, q2, q3, e, rules, st, st);
    ScanJoin(doc, q1, q2, e, rules, st, st);
    ScanJoin(doc, p, q1, e, rules, st, st);
  }

  lemma {:induction false} ElementsSplit(style: Style, m: Entries, o: Options, indent: bytes) returns (rest: bytes)
    requires m.Cons?
    ensures ElementLines(style, m, o, indent) ==
            NewLine(style, indent) + (StyledText(style, m.value, o, indent, false) +
                                      (CommaIf(m.rest.Cons?) + ElementLines(style, m.rest, o, indent)))
    ensures m.rest.Cons? ==> ElementLines(style, m.rest, o, indent) == NewLine(style, indent) + rest
    ensures m.rest.Nil? ==> ElementLines(style, m.rest, o, indent) == []
  {
    hide StyledText, NewLine;
    rest := if m.rest.Nil? then []
            else StyledText(style, m.rest.value, o, indent, false) + CommaIf(m.rest.rest.Cons?) +
                 ElementLines(style, m.rest.rest, o, indent);
  }

  lemma {:induction false} MembersSplit(style: Style, m: Entries, o: Options, indent: bytes) returns (rest: bytes)
    requires m.Cons?
    ensures MemberLines(style, m, o, indent) ==
            NewLine(style, indent) + ((Quoted(NameOf(m.key)) + style.Colon()) +
                                      (StyledText(style, m.value, o, indent, true) +
                                       (CommaIf(m.rest.Cons?) + MemberLines(style, m.rest, o, indent))))
    ensures m.rest.Cons? ==> MemberLines(style, m.rest, o, indent) == NewLine(style, indent) + rest
    ensures m.rest.Nil? ==> MemberLines(style, m.rest, o, indent) == []
  {
    hide StyledText, NewLine, Quoted;
    MemberParts(NewLine(style, indent), Quoted(NameOf(m.key)), style.Colon(),
                StyledText(style, m.value, o, indent, true), CommaIf(m.rest.Cons?),
                MemberLines(style, m.rest, o, indent));
    rest := if m.rest.Nil? then []
            else Quoted(NameOf(m.rest.key)) + style.Colon() + StyledText(style, m.rest.value, o, indent, true) +
                 CommaIf(m.rest.rest.Cons?) + MemberLines(style, m.rest.rest, o, indent);
  }

  lemma {:induction false} ScanElements(style: Style, m: Entries, o: Options, k: nat, doc: bytes, p: nat, st: seq<bool>)
    requires style.Valid() && FormatsPlain(o) && m.Cons? && k == |st| > 0 && InLines(RulesOf(style), st)
    requires style.OnString? ==> ShowingAll(m, o)
    requires At(doc, p, ElementLines(style, m, o, Copies(RulesOf(style).unit, k)))
    requires
      var e := p + |ElementLines(style, m, o, Copies(RulesOf(style).unit, k))|;
      e <= |doc| && Ends(doc, e, RulesOf(style))
    ensures
      var e := p + |ElementLines(style, m, o, Copies(RulesOf(style).unit, k))|;
      Scan(doc, p, e, RulesOf(style), st) == Some(st)
    decreases m, 0
  {
    hide Copies, Scan, At, NextChar, NewLine, Ends, StyledText, Spells, InLines, FormatsPlain, Begins, RulesOf;
    var rules, indent := RulesOf(style), Copies(RulesOf(style).unit, k);
    var rest := ElementsSplit(style, m, o, indent);
    hide ElementLines;
    var line, text, later := NewLine(style, indent), StyledText(style, m.value, o, indent, false),
        ElementLines(style, m.rest, o, indent);
    var comma := CommaIf(m.rest.Cons?);
    var q1 := p + |line|;
    var q2 := q1 + |text|;
    var q3 := q2 + |comma|;
    LineParts(doc, p, line, text, comma, later);
    AfterEntry(style, m.rest.Cons?, later, k, rest, doc, q2, st);
    ValueBegins(style, m.value, o, indent, false);
    BeginsOpen(text, rules);
    LineStarts(style, text, k, doc, p, st);
    ScanValue(style, m.value, o, k, false, doc, q1, st);
    if m.rest.Cons? {
      ScanElements(style, m.rest, o, k, doc, q3, st);
    } else {
      ScanNothing(doc, q3, rules, st);
    }
    ScanThree(doc, p, q1, q2, q3, q3 + |later|, rules, st);
  }

  lemma BeginsOpen(text: bytes, rules: Rules)
    requires Begins(text, rules, false)
    ensures text != [] ==> Opens(text[0])
  {
  }

  lemma {:induction false} ScanMembers(style: Style, m: Entries, o: Options, k: nat, doc: bytes, p: nat, st: seq<bool>)
    requires style.Valid() && FormatsPlain(o) && m.Cons? && k == |st| > 0 && InLines(RulesOf(style), st)
    requires style.OnString? ==> ShowingAll(m, o)
    requires At(doc, p, MemberLines(style, m, o, Copies(RulesOf(style).unit, k)))
    requires
      var e := p + |MemberLines(style, m, o, Copies(RulesOf(style).unit, k))|;
      e <= |doc| && Ends(doc, e, RulesOf(style))
    ensures
      var e := p + |MemberLines(style, m, o, Copies(RulesOf(style).unit, k))|;
      Scan(doc, p, e, RulesOf(style), st) == Some(st)
    decreases m, 0
  {
    hide Copies, Scan, At, NextChar, NewLine, Ends, StyledText, Spells, InLines, FormatsPlain, Begins, RulesOf, Quoted,
         AfterColon;
    var rules, indent := RulesOf(style), Copies(RulesOf(style).unit, k);
    var rest := MembersSplit(style, m, o, indent);
    hide MemberLines;
    var line, text, later := NewLine(style, indent), StyledText(style, m.value, o, indent, true),
        MemberLines(style, m.rest, o, indent);
    var name, comma := Quoted(NameOf(m.key)) + style.Colon(), CommaIf(m.rest.Cons?);
    var q0 := p + |line|;
    var q1 := q0 + |name|;
    var q2 := q1 + |text|;
    var q3 := q2 + |comma|;
    MemberLineParts(doc, p, line, name, text, comma, later);
    AfterEntry(style, m.rest.Cons?, later, k, rest, doc, q2, st);
    NameOpens(NameOf(m.key), style.Colon());
    LineStarts(style, name, k, doc, p, st);
    ValueBegins(style, m.value, o, indent, true);
    ShownMember(style, m, o);
    ColonThenValue(style, text, doc, q1);
    ColonOf(style);
    ScanName(doc, q0, NameOf(m.key), rules, st);
    ScanValue(style, m.value, o, k, true, doc, q1, st);
    if m.rest.Cons? {
      ScanMembers(style, m.rest, o, k, doc, q3, st);
    } else {
      ScanNothing(doc, q3, rules, st);
    }
    ScanThree(doc, q0, q1, q2, q3, q3 + |later|, rules, st);
    ScanJoin(doc, p, q0, q3 + |later|, rules, st, st);
  }

  lemma {:induction false} MemberLineParts(doc: bytes, p: nat, line: bytes, name: bytes, text: bytes, comma: bytes,
                                           later: bytes)
    requires At(doc, p, line + (name + (text + (comma + later))))
    ensures At(doc, p, line + name) && At(doc, p + |line| + |name|, text)
    ensures At(doc, p + |line| + |name| + |text|, comma + later)
  {
    hide At;
    LineParts(doc, p, line, name, text, comma + later);
    AtSplit(doc, p + |line| + |name|, text, comma + later);
  }

  lemma ShownMember(style: Style, m: Entries, o: Options)
    requires m.Cons?
    ensures ShowingAll(m, o) ==> Showing(m.value, o) && ShowingAll(m.rest, o)
  {
  }

  lemma MemberParts(a: bytes, b: bytes, c: bytes, d: bytes, f: bytes, g: bytes)
    ensures a + b + c + d + f + g == a + ((b + c) + (d + (f + g)))
  {
  }

  lemma {:induction false} NameOpens(name: bytes, colon: bytes)
    ensures Quoted(name) + colon != [] && Opens((Quoted(name) + colon)[0])
  {
    hide Quoted;
    QuotedBegins(name);
  }

  lemma ColonOf(style: Style)
    ensures RulesOf(style).colon == style.Colon() && RulesOf(style).unit == style.Unit()
  {
  }

  /** A value in lines or at the root keeps the rules and leaves the open brackets as they are. */
  lemma {:induction false} ScanValue(style: Style, w: Value, o: Options, k: nat, isMember: bool, doc: bytes, p: nat,
                                     st: seq<bool>)
    requires style.Valid() && FormatsPlain(o) && k == |st| && (isMember ==> InLines(RulesOf(style), st))
    requires style.OnString? ==> Showing(w, o)
    requires At(doc, p, StyledText(style, w, o, Copies(RulesOf(style).unit, k), isMember))
    requires
      var e := p + |StyledText(style, w, o, Copies(RulesOf(style).unit, k), isMember)|;
      e <= |doc| && Ends(doc, e, RulesOf(style))
    ensures
      var e := p + |StyledText(style, w, o, Copies(RulesOf(style).unit, k), isMember)|;
      Scan(doc, p, e, RulesOf(style), st) == Some(st)
    decreases w, 1
  {
    hide Copies, Scan, At, NextChar, NewLine, Opening, Spells, InLines, FormatsPlain, RulesOf, ElementLines,
         MemberLines, Joined, TakesLines, LeafText;
    var indent := Copies(RulesOf(style).unit, k);
    if IsLeaf(w) {
      ScanLeaf(style, w, o, doc, p, st);
    } else if w.data.Object? {
      ScanObject(style, w.data.entries, o, k, isMember, doc, p, st);
    } else if TakesLines(style, w.data.entries, o) {
      ScanArray(style, w.data.entries, o, k, isMember, doc, p, st);
    } else {
      assert AllLeaves(w.data.entries) by {
        OnlyLeaves(style, w.data.entries, o);
      }
      ScanOneLine(style, w.data.entries, o, doc, p, st);
    }
  }

  lemma OnlyLeaves(style: Style, m: Entries, o: Options)
    requires !TakesLines(style, m, o)
    ensures AllLeaves(m)
  {
  }

  /** The parts of a container with lines. */
  lemma {:induction false} ContainerParts(doc: bytes, p: nat, front: bytes, open: byte, body: bytes, last: bytes,
                                          close: byte)
    requires At(doc, p, front + [open] + body + (last + [close]))
    ensures At(doc, p, front + [open]) && At(doc, p + |front| + 1, body)
    ensures At(doc, p + |front| + 1 + |body|, last + [close])
  {
    hide At;
    AtSplit(doc, p, front + [open] + body, last + [close]);
    AtSplit(doc, p, front + [open], body);
  }

  lemma {:induction false} ScanObject(style: Style, m: Entries, o: Options, k: nat, isMember: bool, doc: bytes, p: nat,
                                      st: seq<bool>)
    requires style.Valid() && FormatsPlain(o) && k == |st| && (isMember ==> InLines(RulesOf(style), st)) && m.Cons?
    requires style.OnString? ==> ShowingAll(m, o)
    requires
      var indent := Copies(RulesOf(style).unit, k);
      At(doc, p, Opening(style, indent, isMember) + [LEFT_BRACE] + MemberLines(style, m, o, indent + style.Unit()) +
                 (NewLine(style, indent) + [RIGHT_BRACE]))
    ensures
      var indent := Copies(RulesOf(style).unit, k);
      var e := p + |Opening(style, indent, isMember) + [LEFT_BRACE] +
                    MemberLines(style, m, o, indent + style.Unit()) + (NewLine(style, indent) + [RIGHT_BRACE])|;
      e <= |doc| && Scan(doc, p, e, RulesOf(style), st) == Some(st)
    decreases m, 1
  {
    hide Scan, At, NextChar, NewLine, Opening, Spells, FormatsPlain, RulesOf, StyledText, Ends, Quoted, ShowingAll;
    var rules, indent := RulesOf(style), Copies(RulesOf(style).unit, k);
    ColonOf(style);
    var inside := Copies(rules.unit, k + 1);
    assert inside == indent + style.Unit();
    var front, body, last := Opening(style, indent, isMember), MemberLines(style, m, o, inside), NewLine(style, indent);
    ContainerParts(doc, p, front, 123, body, last, 125);
    var q1 := p + |front| + 1;
    var q2 := q1 + |body|;
    var q3 := q2 + |last| + 1;
    MembersFirst(style, m, o, inside, doc, q1);
    var inner := st + [CharAt(doc, q1) == 10];
    ScanOpening(style, k, isMember, 123, doc, p, st);
    ClosingEnds(style, k, 125, doc, q2);
    AtLong(doc, q1, body);
    ScanMembers(style, m, o, k + 1, doc, q1, inner);
    ScanClosing(style, k, 125, doc, q2, st, CharAt(doc, q1) == 10);
    ScanJoin(doc, q1, q2, q3, rules, inner, inner);
    ScanJoin(doc, p, q1, q3, rules, st, inner);
  }

  lemma {:induction false} MembersFirst(style: Style, m: Entries, o: Options, indent: bytes, doc: bytes, p: nat)
    requires m.Cons? && At(doc, p, MemberLines(style, m, o, indent))
    ensures p <= |doc| && (RulesOf(style).flat || CharAt(doc, p) == 10)
  {
    hide At, NewLine, Quoted, StyledText, RulesOf;
    var rest := Quoted(NameOf(m.key)) + style.Colon() + StyledText(style, m.value, o, indent, true) +
        CommaIf(m.rest.Cons?) + MemberLines(style, m.rest, o, indent);
    assert MemberLines(style, m, o, indent) == NewLine(style, indent) + rest;
    BreakFirst(style, indent, rest, doc, p);
  }

  lemma {:induction false} ElementsFirst(style: Style, m: Entries, o: Options, indent: bytes, doc: bytes, p: nat)
    requires m.Cons? && At(doc, p, ElementLines(style, m, o, indent))
    ensures p <= |doc| && (RulesOf(style).flat || CharAt(doc, p) == 10)
  {
    hide At, NewLine, StyledText, RulesOf;
    var rest := StyledText(style, m.value, o, indent, false) + CommaIf(m.rest.Cons?) +
        ElementLines(style, m.rest, o, indent);
    assert ElementLines(style, m, o, indent) == NewLine(style, indent) + rest;
    BreakFirst(style, indent, rest, doc, p);
  }

  lemma {:induction false} ScanArray(style: Style, m: Entries, o: Options, k: nat, isMember: bool, doc: bytes, p: nat,
                                     st: seq<bool>)
    requires style.Valid() && FormatsPlain(o) && k == |st| && (isMember ==> InLines(RulesOf(style), st)) && m.Cons?
    requires style.OnString? ==> ShowingAll(m, o)
    requires
      var indent := Copies(RulesOf(style).unit, k);
      At(doc, p, Opening(style, indent, isMember) + [LEFT_BRACKET] + ElementLines(style, m, o, indent + style.Unit()) +
                 (NewLine(style, indent) + [RIGHT_BRACKET]))
    ensures
      var indent := Copies(RulesOf(style).unit, k);
      var e := p + |Opening(style, indent, isMember) + [LEFT_BRACKET] +
                    ElementLines(style, m, o, indent + style.Unit()) + (NewLine(style, indent) + [RIGHT_BRACKET])|;
      e <= |doc| && Scan(doc, p, e, RulesOf(style), st) == Some(st)
    decreases m, 1
  {
    hide Scan, At, NextChar, NewLine, Opening, Spells, FormatsPlain, RulesOf, StyledText, Ends, ShowingAll;
    var rules, indent := RulesOf(style), Copies(RulesOf(style).unit, k);
    ColonOf(style);
    var inside := Copies(rules.unit, k + 1);
    assert inside == indent + style.Unit();
    var front, body := Opening(style, indent, isMember), ElementLines(style, m, o, inside);
    var last := NewLine(style, indent);
    ContainerParts(doc, p, front, 91, body, last, 93);
    var q1 := p + |front| + 1;
    var q2 := q1 + |body|;
    var q3 := q2 + |last| + 1;
    ElementsFirst(style, m, o, inside, doc, q1);
    var inner := st + [CharAt(doc, q1) == 10];
    ScanOpening(style, k, isMember, 91, doc, p, st);
    ClosingEnds(style, k, 93, doc, q2);
    AtLong(doc, q1, body);
    ScanElements(style, m, o, k + 1, doc, q1, inner);
    ScanClosing(style, k, 93, doc, q2, st, CharAt(doc, q1) == 10);
    ScanJoin(doc, q1, q2, q3, rules, inner, inner);
    ScanJoin(doc, p, q1, q3, rules, st, inner);
  }

  // --------------------------------------------------------------------------- Main result

  /**
   The layout of every tree keeps the rules: each line feed is followed by exactly one unit of indentation
   for each bracket open there, and other white space stands only where the style puts it. For the string
   writer every leaf must print as something.
   */
  lemma {:induction false} StyledIsLaidOut(style: Style, v: Value, o: Options)
    requires style.Valid() && FormatsPlain(o) && Valid(v) && Shows(style, v, o)
    ensures LaidOut(TextOf(style, v, o, [], false), RulesOf(style))
  {
    hide StyledText, Showing, Scan, Spells, Shown;
    var text := TextOf(style, v, o, [], false);
    assert text[0..|text|] == text && At(text, 0, text);
    assert Copies(RulesOf(style).unit, 0) == [];
    assert Ends(text, |text|, RulesOf(style));
    ScanValue(style, Shown(FilledValue(v), style.CutsKeys()), o, 0, false, text, 0, []);
  }
}
