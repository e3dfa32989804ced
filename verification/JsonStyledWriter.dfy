/**
 The styled writers (json_writer.cpp). StyledWriter, StyledStreamWriter and BuiltStyledStreamWriter
 differ in a handful of places; they are one class here with a style that selects among them. Trees
 carry no comments.
 */
module JsonStyledWriter {
  import opened Bytes
  import opened JsonNumber
  import opened JsonString
  import opened JsonValue
  import opened JsonOrder
  import opened JsonGrammar
  import opened JsonFastWriter
  import opened JsonTokens
  import opened JsonStyledText
  import opened JsonStyledLines

  function TokensOf(v: Value, cut: bool, o: Options): seq<bytes>
    requires Valid(v)
  {
    Tokens(Shown(FilledValue(v), cut), o)
  }

  /** The element tokens from slot `i` on. */
  function ElementTokensFrom(m: Entries, i: nat, cut: bool, o: Options): seq<bytes>
    requires KeysOfKind(m, true) && ValidEntries(m)
  {
    ElementTokens(ShownEntries(FilledEntries(m, i), cut), o)
  }

  function MemberTokensFrom(m: Entries, cut: bool, o: Options): seq<bytes>
    requires ValidEntries(m)
  {
    MemberTokens(ShownEntries(FilledMembers(m), cut), o)
  }

  lemma {:induction false} BracketsSpell()
    ensures Spells([[LEFT_BRACKET], [RIGHT_BRACKET]], [LEFT_BRACKET, RIGHT_BRACKET])
    ensures Spells([[LEFT_BRACE], [RIGHT_BRACE]], [LEFT_BRACE, RIGHT_BRACE])
  {
    TokenSpells([LEFT_BRACKET]);
    TokenSpells([RIGHT_BRACKET]);
    TokenSpells([LEFT_BRACE]);
    TokenSpells([RIGHT_BRACE]);
    SpellsConcat([[LEFT_BRACKET]], [LEFT_BRACKET], [[RIGHT_BRACKET]], [RIGHT_BRACKET]);
    SpellsConcat([[LEFT_BRACE]], [LEFT_BRACE], [[RIGHT_BRACE]], [RIGHT_BRACE]);
  }

  lemma {:induction false} ScalarSpells(d: Data, o: Options)
    requires FormatsBare(o) && !IsContainer(d)
    ensures Spells(ScalarTokens(d, o), ScalarText(d, o))
  {
    hide IntText, DecText, Quoted, SpellsFrom;
    var t := ScalarText(d, o);
    if t == [] {
      SpacesSpell(t);
    } else {
      assert !IsSpace(t[0]) by {
        ScalarStarts(d, o);
      }
      TokenSpells(t);
    }
  }

  lemma ScalarStarts(d: Data, o: Options)
    requires FormatsBare(o)
    ensures ScalarText(d, o) != [] ==> !IsSpace(ScalarText(d, o)[0])
  {
  }

  lemma EmptyLeafText(v: Value, o: Options)
    ensures v.data.Array? ==> LeafText(v, o) == [LEFT_BRACKET, RIGHT_BRACKET]
    ensures v.data.Object? ==> LeafText(v, o) == [LEFT_BRACE, RIGHT_BRACE]
  {
  }

  lemma EmptyTokens(cut: bool, o: Options)
    ensures forall i: nat :: FilledEntries(Nil, i) == Nil && ElementTokensFrom(Nil, i, cut, o) == []
    ensures FilledMembers(Nil) == Nil && MemberTokensFrom(Nil, cut, o) == []
    ensures ShownEntries(Nil, cut) == Nil && ElementTokens(Nil, o) == [] && MemberTokens(Nil, o) == []
  {
  }

  /** The text of a leaf spells its tokens. */
  lemma {:induction false} LeafSpells(v: Value, cut: bool, o: Options)
    requires FormatsBare(o) && Valid(v) && IsLeaf(v)
    ensures Spells(TokensOf(v, cut, o), LeafText(v, o))
  {
    hide SpellsFrom, ScalarTokens;
    BracketsSpell();
    var w := Shown(FilledValue(v), cut);
    EmptyTokens(cut, o);
    match v.data
    case Array(m) =>
      assert m == Nil && FilledValue(v).data == Array(Nil);
      assert w.data == Array(Nil) && Tokens(w, o) == [[LEFT_BRACKET], [RIGHT_BRACKET]];
    case Object(m) =>
      assert m == Nil && FilledValue(v).data == Object(Nil);
      assert w.data == Object(Nil) && Tokens(w, o) == [[LEFT_BRACE], [RIGHT_BRACE]];
    case d =>
      ScalarSpells(d, o);
  }

  lemma {:induction false} ElementTokensStep(m: Entries, rest: Entries, index: nat, cut: bool, o: Options)
    requires FromIndex(rest, index) && ValidEntries(rest) && rest.Cons?
    requires forall j :: index <= j ==> Get(rest, Index(j)) == Get(m, Index(j))
    ensures
      var next := PastSlot(rest, index);
      && Valid(Get(m, Index(index))) && FromIndex(next, index + 1) && ValidEntries(next)
      && ElementTokensFrom(rest, index, cut, o) ==
         TokensOf(Get(m, Index(index)), cut, o) + (CommaTokens(next.Cons?) + ElementTokensFrom(next, index + 1, cut, o))
  {
    hide Find, Tokens, Sorted, KeysOfKind, CutKeys, FilledValue;
    SlotStep(m, rest, index);
    var next := PastSlot(rest, index);
    assert ShownEntries(FilledEntries(rest, index), cut) ==
           Cons(Index(index), Shown(FilledValue(Get(m, Index(index))), cut),
                ShownEntries(FilledEntries(next, index + 1), cut));
  }

  lemma {:induction false} MemberTokensStep(rest: Entries, cut: bool, o: Options)
    requires rest.Cons? && ValidEntries(rest) && rest.key.Name?
    ensures Valid(rest.value) && ValidEntries(rest.rest)
    ensures MemberTokensFrom(rest, cut, o) ==
            [Quoted(ShownName(rest.key.s, cut)), [COLON]] +
            (TokensOf(rest.value, cut, o) + (CommaTokens(rest.rest.Cons?) + MemberTokensFrom(rest.rest, cut, o)))
  {
    hide Tokens, CutKeys, FilledValue, Quoted, CutAtNul;
    var shown := ShownEntries(FilledMembers(rest), cut);
    assert shown == Cons(Name(ShownName(rest.key.s, cut)), Shown(FilledValue(rest.value), cut),
                         ShownEntries(FilledMembers(rest.rest), cut));
  }

  // --------------------------------------------------------------------------- One-line arrays

  /** The texts of the slots from `i` up to `n` of an array of leaves. */
  function ChildTexts(m: Entries, i: nat, n: nat, o: Options): seq<bytes>
    decreases n - i
  {
    if i >= n then [] else [LeafText(Get(m, Index(i)), o)] + ChildTexts(m, i + 1, n, o)
  }

  predicate SlotsAreLeaves(m: Entries, n: nat) {
    forall i :: 0 <= i < n ==> IsLeaf(Get(m, Index(i)))
  }

  /** Size as the value class reports it. */
  function ValueSize(v: Value): nat {
    match v.data
    case Array(m) => ArraySize(m)
    case Object(m) => Count(m)
    case _ => 0
  }

  lemma {:induction false} LeafBySize(v: Value)
    requires Valid(v)
    ensures IsLeaf(v) <==> !(IsContainer(v.data) && ValueSize(v) > 0)
  {
    if v.data.Array? {
      ArrayStart(v.data.entries);
    }
  }

  lemma {:induction false} ChildTextsAt(m: Entries, i: nat, n: nat, o: Options, k: nat)
    requires i <= k < n
    ensures |ChildTexts(m, i, n, o)| == n - i && ChildTexts(m, i, n, o)[k - i] == LeafText(Get(m, Index(k)), o)
    decreases n - i
  {
    if i < k {
      ChildTextsAt(m, i + 1, n, o, k);
    } else {
      ChildTextsLength(m, i, n, o);
    }
  }

  lemma {:induction false} ChildTextsLength(m: Entries, i: nat, n: nat, o: Options)
    requires i <= n
    ensures |ChildTexts(m, i, n, o)| == n - i
    decreases n - i
  {
    if i < n {
      ChildTextsLength(m, i + 1, n, o);
    }
  }

  lemma {:induction false} ChildTextsGrow(m: Entries, i: nat, n: nat, o: Options)
    requires i <= n
    ensures ChildTexts(m, i, n + 1, o) == ChildTexts(m, i, n, o) + [LeafText(Get(m, Index(n)), o)]
    decreases n - i
  {
    if i < n {
      ChildTextsGrow(m, i + 1, n, o);
    } else {
      assert ChildTexts(m, n + 1, n + 1, o) == [];
    }
  }

  /** The two arrays agree from slot `index` on. */
  ghost predicate SameFrom(rest: Entries, m: Entries, index: nat) {
    forall j :: index <= j ==> Get(rest, Index(j)) == Get(m, Index(j))
  }

  function TotalLength(texts: seq<bytes>): nat {
    if texts == [] then 0 else |texts[0]| + TotalLength(texts[1..])
  }

  lemma {:induction false} TotalLengthGrows(texts: seq<bytes>, t: bytes)
    ensures TotalLength(texts + [t]) == TotalLength(texts) + |t|
  {
    if texts == [] {
      assert [t][1..] == [];
    } else {
      assert (texts + [t])[1..] == texts[1..] + [t];
      TotalLengthGrows(texts[1..], t);
    }
  }

  /** The filled array seen slot by slot. */
  lemma {:induction false} SlotsOfFilled(style: Style, m: Entries, rest: Entries, index: nat, size: nat, o: Options)
    requires FromIndex(rest, index) && ValidEntries(rest) && SameFrom(rest, m, index) && index <= size
    requires (rest.Cons? <==> index < size) && (rest.Cons? ==> ArraySize(rest) == size)
    ensures
      var es := ShownEntries(FilledEntries(rest, index), style.CutsKeys());
      && Count(es) == size - index
      && (AllLeaves(es) <==> forall j :: index <= j < size ==> IsLeaf(Get(m, Index(j))))
      && (AllLeaves(es) ==> TextLength(es, o) == TotalLength(ChildTexts(m, index, size, o)))
    decreases size - index
  {
    hide Find, Get, LeafText, IsLeaf, CutKeys, FilledValue, Sorted, PastSlot, ArraySize;
    if index < size {
      SlotStep(m, rest, index);
      var next, child := PastSlot(rest, index), Get(m, Index(index));
      var es := ShownEntries(FilledEntries(rest, index), style.CutsKeys());
      var later := ShownEntries(FilledEntries(next, index + 1), style.CutsKeys());
      SlotsOfFilled(style, m, next, index + 1, size, o);
      ShownLeaf(style, child, o, [], false);
      assert es == Cons(Index(index), Shown(FilledValue(child), style.CutsKeys()), later);
      assert ChildTexts(m, index, size, o)[1..] == ChildTexts(m, index + 1, size, o);
      if AllLeaves(es) {
        forall j | index <= j < size ensures IsLeaf(Get(m, Index(j))) {
        }
      }
    } else {
      assert rest == Nil;
    }
  }

  /** When an array takes lines, in terms of its slots. */
  lemma {:induction false} TakesLinesBySlots(style: Style, m: Entries, size: nat, o: Options)
    requires m.Cons? && Sorted(m) && KeysOfKind(m, true) && ValidEntries(m) && size == ArraySize(m)
    ensures ArrayTakesLines(style, m, o) <==>
            || (style.Built? && style.allComments)
            || size * 3 >= 74
            || !SlotsAreLeaves(m, size)
            || 4 + (size - 1) * 2 + TotalLength(ChildTexts(m, 0, size, o)) >= 74
  {
    hide FilledEntries, ChildTexts, IsLeaf, Get;
    ArrayStart(m);
    SlotsOfFilled(style, m, m, 0, size, o);
  }

  /** The slots of a well-formed array hold well-formed values. */
  lemma {:induction false} SlotValid(m: Entries, key: Key)
    requires ValidEntries(m)
    ensures Valid(Get(m, key))
  {
    if m.Cons? && KeyLess(m.key, key) {
      SlotValid(m.rest, key);
    }
  }

  // --------------------------------------------------------------------------- The writer

  class StyledWriter {
    const style: Style
    const options: Options  // how doubles are formatted, and whether nulls are dropped
    var document: bytes
    var childValues: seq<bytes>
    var indentString: bytes
    var addChildValues: bool
    var indented: bool

    /** What the settings must satisfy. */
    ghost predicate Settings() {
      && style.Valid() && FormatsBare(options)
      && !options.yamlCompatible && (options.dropNullPlaceholders <==> style.NullText() == [])
    }

    /** Indentation is white space; a writer that keeps comments never collects children. */
    ghost predicate Ready()
      reads this`indentString, this`childValues, this`addChildValues
    {
      && AllSpaces(indentString)
      && (style.Built? && style.allComments ==> childValues == [] && !addChildValues)
    }

    /** Where a value begins: no space is needed before the opening bracket of one that is no member. */
    ghost predicate AtStart(isMember: bool)
      reads this`document, this`indented, this`indentString
    {
      if style.OnString? then SpaceNeeded(document, indentString) == [] else indented == !isMember
    }

    /** Where a line ends: what comes next begins a new one. */
    ghost predicate AtEnd()
      reads this`document, this`indented
    {
      if style.OnString? then IsSolidEnd(document) else !indented
    }

    lemma BareFormats()
      requires Settings()
      ensures FormatsBare(options)
    {
    }

    constructor (style: Style, formatReal: Double -> bytes)
      requires style.Valid() && forall d :: IsBare(formatReal(d))
      ensures this.style == style && Settings() && Ready()
      ensures options.formatReal == formatReal
    {
      this.style := style;
      options := Options(false, style.NullText() == [], false, formatReal);
      document, childValues, indentString, addChildValues, indented := [], [], [], false, false;
    }

    method PushValue(value: bytes)
      modifies this`childValues, this`document
      ensures if addChildValues then childValues == old(childValues) + [value] && document == old(document)
              else childValues == old(childValues) && document == old(document) + value
    {
      if addChildValues {
        childValues := childValues + [value];
      } else {
        document := document + value;
      }
    }

    /** Starts a line, unless the string writer finds itself after a space or at the start of one. */
    method WriteIndent() returns (ghost space: bytes)
      requires Settings() && Ready()
      modifies this`document
      ensures document == old(document) + space && AllSpaces(space)
      ensures space == if style.OnString? then SpaceNeeded(old(document), indentString)
              else NewLine(style, indentString)
    {
      space := [];
      match style {
        case OnString =>
          if document != [] {
            var last := document[|document| - 1];
            if last == SPACE {
              return;
            }
            if last != LINE_FEED {
              document := document + [LINE_FEED];
              space := [LINE_FEED];
            }
          }
          document := document + indentString;
          space := space + indentString;
        case OnStream(_) =>
          document := document + [LINE_FEED] + indentString;
          space := [LINE_FEED] + indentString;
        case Built(indentation, _, _, _, _) =>
          if indentation != [] {
            document := document + [LINE_FEED] + indentString;
            space := [LINE_FEED] + indentString;
          }
      }
    }

    /** The stream writers remember whether they are indented already. */
    method WriteIndentIfNeeded() returns (ghost space: bytes)
      requires Settings() && Ready()
      modifies this`document
      ensures document == old(document) + space && AllSpaces(space)
      ensures old(AtEnd()) ==> space == NewLine(style, indentString)
      ensures forall isMember :: old(AtStart(isMember)) ==> space == Opening(style, indentString, isMember)
      ensures style.OnString? && indentString != [] && indentString[|indentString| - 1] == SPACE ==>
                SpaceNeeded(document, indentString) == []
    {
      space := [];
      if style.OnString? || !indented {
        space := WriteIndent();
      }
    }

    method WriteWithIndent(value: bytes) returns (ghost space: bytes)
      requires Settings() && Ready()
      modifies this`document, this`indented
      ensures document == old(document) + space + value && AllSpaces(space) && !indented
      ensures IsSolidEnd(value) ==> AtEnd()
      ensures old(AtEnd()) ==> space == NewLine(style, indentString)
      ensures forall isMember :: old(AtStart(isMember)) ==> space == Opening(style, indentString, isMember)
    {
      space := WriteIndentIfNeeded();
      document := document + value;
      indented := false;
    }

    method Indent()
      requires Settings() && Ready()
      modifies this`indentString
      ensures indentString == old(indentString) + style.Unit() && Ready() && Deep()
    {
      indentString := indentString + style.Unit();
    }

    method Unindent(ghost before: bytes)
      requires Settings() && Ready() && indentString == before + style.Unit()
      modifies this`indentString
      ensures indentString == before && Ready()
    {
      indentString := indentString[..|indentString| - |style.Unit()|];
      assert indentString == before;
      assert forall i :: 0 <= i < |before| ==> before[i] == (before + style.Unit())[i];
    }

    /** The string writer is inside some container. */
    ghost predicate Deep()
      reads this`indentString
    {
      style.OnString? ==> indentString != [] && indentString[|indentString| - 1] == SPACE
    }

    /** With no comments to print, one of the stream writers still resets its indentation flag. */
    method AfterValue()
      modifies this`indented
      ensures old(AtEnd()) ==> AtEnd()
      ensures old(!indented) ==> !indented
    {
      if style.OnStream? {
        indented := false;
      }
    }

    /** `write`: the output spells the tokens of the tree, with the ending after them. */
    method Write(root: Value) returns (text: bytes)
      requires Settings() && Valid(root) && Ready()
      modifies this
      ensures text == document && Spells(TokensOf(root, style.CutsKeys(), options), text)
      ensures Shows(style, root, options) ==> text == TextOf(style, root, options, [], false) + style.Ending()
      ensures |text| >= |style.Ending()| && text[|text| - |style.Ending()|..] == style.Ending()
      ensures Shows(style, root, options) && FormatsPlain(options) ==>
                LaidOut(text[..|text| - |style.Ending()|], RulesOf(style))
      ensures Ready() && indentString == [] && !addChildValues
    {
      hide Spells, TokensOf, TextOf, Shows, LaidOut, FormatsPlain;
      document := [];
      addChildValues := false;
      indentString := [];
      indented := true;
      ghost var piece := WriteValue(root, false);
      AfterValue();
      document := document + style.Ending();
      SpacesSpell(style.Ending());
      SpellsConcat(TokensOf(root, style.CutsKeys(), options), piece, [], style.Ending());
      assert TokensOf(root, style.CutsKeys(), options) + [] == TokensOf(root, style.CutsKeys(), options);
      assert [] + piece == piece;
      text := document;
      if Shows(style, root, options) && FormatsPlain(options) {
        StyledIsLaidOut(style, root, options);
        assert text[..|text| - |style.Ending()|] == TextOf(style, root, options, [], false);
      }
    }

    /**
     While children are collected the value is a leaf, and exactly its text is collected. Otherwise
     the document grows by a text that spells the tokens of the value, laid out as the style says.
     */
    method WriteValue(value: Value, ghost isMember: bool) returns (ghost text: bytes)
      requires Settings() && Valid(value) && Ready()
      requires if addChildValues then IsLeaf(value) else AtStart(isMember)
      modifies this
      ensures addChildValues ==> indented == old(indented)
      ensures !addChildValues && !style.OnString? && isMember ==> !indented
      ensures !addChildValues && Shows(style, value, options) ==>
              text == TextOf(style, value, options, indentString, isMember)
      ensures Ready() && indentString == old(indentString) && addChildValues == old(addChildValues)
      ensures addChildValues ==>
              document == old(document) &&
              childValues == old(childValues) + [LeafText(value, options)]
      ensures !addChildValues ==>
              document == old(document) + text &&
              Spells(TokensOf(value, style.CutsKeys(), options), text)
      decreases Size(value), 2
    {
      hide Spells, TokensOf, Quoted, IntText, DecText, StyledText, CutKeys, FilledValue, Shows;
      text := LeafText(value, options);
      ShownLeaf(style, value, options, indentString, isMember);
      if IsLeaf(value) {
        LeafSpells(value, style.CutsKeys(), options);
      }
      match value.data {
        case Null =>
          PushValue(style.NullText());
        case Int(i) =>
          var t := ValueToStringSigned(i);
          PushValue(t);
        case UInt(u) =>
          var t := ValueToStringUnsigned(u);
          PushValue(t);
        case Real(x) =>
          PushValue(options.formatReal(x));
        case Str(s) =>
          if s.Some? {
            var t := ValueToQuotedStringN(s.value);
            PushValue(t);
          } else {
            PushValue([]);
          }
        case Bool(b) =>
          PushValue(if b then TRUE_TEXT else FALSE_TEXT);
        case Array(m) =>
          text := WriteArrayValue(value, isMember);
        case Object(m) =>
          text := WriteObjectValue(value, isMember);
      }
    }

    method WriteObjectValue(value: Value, ghost isMember: bool) returns (ghost text: bytes)
      requires Settings() && Valid(value) && value.data.Object? && Ready()
      requires if addChildValues then IsLeaf(value) else AtStart(isMember)
      modifies this
      ensures addChildValues ==> indented == old(indented)
      ensures !addChildValues && !style.OnString? && isMember ==> !indented
      ensures !addChildValues && Shows(style, value, options) ==>
              text == TextOf(style, value, options, indentString, isMember)
      ensures Ready() && indentString == old(indentString) && addChildValues == old(addChildValues)
      ensures addChildValues ==>
              document == old(document) &&
              childValues == old(childValues) + [LeafText(value, options)]
      ensures !addChildValues ==>
              document == old(document) + text &&
              Spells(TokensOf(value, style.CutsKeys(), options), text)
      decreases Size(value), 1
    {
      hide Spells, TokensOf, MemberTokensFrom, MemberNames, Sorted, LeafText, TextOf, Shows, MembersShow,
           MemberLinesFrom, Opening, NewLine;
      var m := value.data.entries;
      ShownLeaf(style, value, options, indentString, isMember);
      var members := MemberNames(m);
      if members == [] {
        TailStart(m);
        LeafSpells(value, style.CutsKeys(), options);
        EmptyLeafText(value, options);
        text := [LEFT_BRACE, RIGHT_BRACE];
        PushValue([LEFT_BRACE, RIGHT_BRACE]);
        return;
      }
      TailStart(m);
      ObjectText(style, value, options, indentString, isMember);
      ObjectTokens(value, style.CutsKeys(), options);
      text := WriteBraced(m, members, isMember);
    }

    /** The braces and the members between them. */
    method WriteBraced(m: Entries, members: seq<bytes>, ghost isMember: bool) returns (ghost text: bytes)
      requires Settings() && Ready() && !addChildValues && AtStart(isMember)
      requires m.Cons? && Sorted(m) && KeysOfKind(m, false) && ValidEntries(m) && members == MemberNames(m)
      modifies this
      ensures Ready() && indentString == old(indentString) && !addChildValues
      ensures document == old(document) + text
      ensures Spells([[LEFT_BRACE]] + MemberTokensFrom(m, style.CutsKeys(), options) + [[RIGHT_BRACE]], text)
      ensures !indented
      ensures MembersShow(style, m, options) ==>
                text == Opening(style, indentString, isMember) + [LEFT_BRACE] +
                        MemberLinesFrom(style, m, options, indentString + style.Unit()) +
                        (NewLine(style, indentString) + [RIGHT_BRACE])
      decreases EntriesSize(m), 5
    {
      hide Spells, MemberTokensFrom, MemberNames, Sorted, Settings, MembersShow, MemberLinesFrom, Opening, NewLine;
      hide AllSpaces, Ready, IsSolidEnd, AtEnd, AtStart, Deep;
      BracketEnds();
      ghost var before := indentString;
      ghost var space := WriteWithIndent([LEFT_BRACE]);
      Indent();
      ghost var body := WriteMembers(m, members);
      Unindent(before);
      ghost var last := WriteWithIndent([RIGHT_BRACE]);
      text := space + [LEFT_BRACE] + body + (last + [RIGHT_BRACE]);
      BracketedSpells(LEFT_BRACE, space, MemberTokensFrom(m, style.CutsKeys(), options), body, last, RIGHT_BRACE);
    }

    /** The loop over the members: each on its own line, separated by commas. */
    method WriteMembers(m: Entries, members: seq<bytes>) returns (ghost text: bytes)
      requires Settings() && Ready() && !addChildValues
      requires m.Cons? && Sorted(m) && KeysOfKind(m, false) && ValidEntries(m) && members == MemberNames(m)
      requires AtEnd()
      modifies this
      ensures Ready() && indentString == old(indentString) && !addChildValues
      ensures document == old(document) + text && Spells(MemberTokensFrom(m, style.CutsKeys(), options), text)
      ensures MembersShow(style, m, options) ==> AtEnd() && text == MemberLinesFrom(style, m, options, indentString)
      decreases EntriesSize(m), 4
    {
      hide Spells, MemberTokensFrom, TokensOf, Find, MemberNames, Tail, Size, Sorted, Quoted, Ready, Settings;
      hide TextOf, Shows, MembersShow, MemberLinesFrom, NewLine, AtEnd, ShownName;
      ghost var cut := style.CutsKeys();
      ghost var lines := MemberLinesFrom(style, m, options, indentString);
      ghost var all := MemberTokensFrom(m, cut, options);
      ghost var rest := m;
      ghost var done: seq<bytes> := [];
      text := [];
      NothingSpells();
      TailStart(m);
      var it := 0;
      assert done + all == all;
      while true
        invariant 0 <= it < |members| && Tail(rest, m) && rest.Cons? && KeysOfKind(rest, false) && ValidEntries(rest)
        invariant members[it..] == MemberNames(rest)
        invariant Ready() && indentString == old(indentString) && !addChildValues
        invariant document == old(document) + text && Spells(done, text)
        invariant done + MemberTokensFrom(rest, cut, options) == all
        invariant MembersShow(style, m, options) ==>
                    AtEnd() && MembersShow(style, rest, options) &&
                        text + MemberLinesFrom(style, rest, options, indentString) == lines
        decreases |members| - it
      {
        var name := members[it];
        MemberStep(m, rest);
        assert name == members[it..][0] && members[it + 1..] == members[it..][1..];
        SizeOfGet(m, Name(name));
        ghost var piece := WriteMember(name, Get(m, Name(name)));
        MemberLine(rest, cut, options, done, text, piece, all);
        MemberLinesStep(style, rest, options, indentString);
        NoLines(style, options, indentString);
        if MembersShow(style, m, options) {
          LineAdded(text, piece, rest.rest.Cons?, MemberLinesFrom(style, rest.rest, options, indentString), lines);
        }
        text := text + piece;
        it := it + 1;
        if it == |members| {
          AfterValue();
          break;
        }
        WriteComma();
        done, text := done + MemberLineTokens(rest, cut, options), text + [COMMA];
        rest := rest.rest;
      }
    }

    /** After a value that is not the last one. */
    method WriteComma()
      modifies this`document, this`indented
      ensures document == old(document) + [COMMA]
      ensures old(AtEnd()) ==> AtEnd()
    {
      document := document + [COMMA];
      AfterValue();
    }

    lemma ColonEnds()
      requires Settings()
      ensures Spells([[COLON]], style.Colon())
      ensures style.OnString? ==> style.Colon() == SPACED_COLON
    {
    }

    method QuotedName(name: bytes) returns (key: bytes)
      ensures key == Quoted(ShownName(name, style.CutsKeys()))
    {
      if style.CutsKeys() {
        key := ValueToQuotedString(name);
      } else {
        key := ValueToQuotedStringN(name);
      }
    }

    /** The name of a member and the colon. */
    method WriteKey(name: bytes) returns (ghost text: bytes)
      requires Settings() && Ready()
      modifies this`document, this`indented
      ensures document == old(document) + text
      ensures Spells([Quoted(ShownName(name, style.CutsKeys())), [COLON]], text)
      ensures AtStart(true)
      ensures old(AtEnd()) ==>
              text == NewLine(style, indentString) + Quoted(ShownName(name, style.CutsKeys())) +
              style.Colon()
    {
      hide Spells, Quoted, ShownName, NewLine, Opening, AllSpaces, Ready, IsSolidEnd, AtEnd, SpaceNeeded;
      ColonEnds();
      var key := QuotedName(name);
      ghost var space := WriteWithIndent(key);
      text := space + key + style.Colon();
      KeySpells(space, ShownName(name, style.CutsKeys()), style.Colon());
      SpaceAfterColon(document, indentString);
      assert document + style.Colon() == old(document) + text;
      document := document + style.Colon();
    }

    method WriteMember(name: bytes, value: Value) returns (ghost text: bytes)
      requires Settings() && Valid(value) && Ready() && !addChildValues
      modifies this
      ensures Ready() && indentString == old(indentString) && !addChildValues
      ensures document == old(document) + text
      ensures Spells([Quoted(ShownName(name, style.CutsKeys())), [COLON]] +
                     TokensOf(value, style.CutsKeys(), options), text)
      ensures old(AtEnd()) && Shows(style, value, options) ==>
                && AtEnd()
                && text == NewLine(style, indentString) + Quoted(ShownName(name, style.CutsKeys())) + style.Colon() +
                           TextOf(style, value, options, indentString, true)
      decreases Size(value), 3
    {
      hide Spells, TokensOf, Quoted, Settings, TextOf, Shows, NewLine, IsSolidEnd, ShownName;
      BareFormats();
      ghost var key := WriteKey(name);
      ghost var before := document;
      ghost var piece := WriteValue(value, true);
      if style.OnString? && Shows(style, value, options) {
        ShownTextEndsSolid(style, value, options, indentString, true);
        EndsLike(before, piece);
      }
      text := key + piece;
      SpellsConcat([Quoted(ShownName(name, style.CutsKeys())), [COLON]], key,
                   TokensOf(value, style.CutsKeys(), options), piece);
    }

    method WriteArrayValue(value: Value, ghost isMember: bool) returns (ghost text: bytes)
      requires Settings() && Valid(value) && value.data.Array? && Ready()
      requires if addChildValues then IsLeaf(value) else AtStart(isMember)
      modifies this
      ensures addChildValues ==> indented == old(indented)
      ensures !addChildValues && !style.OnString? && isMember ==> !indented
      ensures !addChildValues && Shows(style, value, options) ==>
              text == TextOf(style, value, options, indentString, isMember)
      ensures Ready() && indentString == old(indentString) && addChildValues == old(addChildValues)
      ensures addChildValues ==>
              document == old(document) &&
              childValues == old(childValues) + [LeafText(value, options)]
      ensures !addChildValues ==>
              document == old(document) + text &&
              Spells(TokensOf(value, style.CutsKeys(), options), text)
      decreases Size(value), 1
    {
      hide Spells, TokensOf, ElementTokensFrom, ArraySize, Sorted, LeafText, Collected, TextOf, Shows, ElementsShow;
      hide ElementLinesFrom, JoinedFrom, ArrayTakesLines, Opening, NewLine, SpaceNeeded;
      var m := value.data.entries;
      ShownLeaf(style, value, options, indentString, isMember);
      var size := ArraySize(m);
      ArrayStart(m);
      if size == 0 {
        LeafSpells(value, style.CutsKeys(), options);
        EmptyLeafText(value, options);
        text := [LEFT_BRACKET, RIGHT_BRACKET];
        PushValue([LEFT_BRACKET, RIGHT_BRACKET]);
        return;
      }
      var isMultiLine := true;
      if !(style.Built? && style.allComments) {
        isMultiLine := IsMultilineArray(m, size);
      }
      ArrayTokens(value, style.CutsKeys(), options);
      ArrayText(style, value, options, indentString, isMember);
      TakesLinesBySlots(style, m, size, options);
      if isMultiLine {
        text := WriteMultiLine(m, size, isMember);
      } else {
        text := WriteOneLine(m, size);
      }
    }

    method WriteMultiLine(m: Entries, size: nat, ghost isMember: bool) returns (ghost text: bytes)
      requires Settings() && Ready() && !addChildValues && AtStart(isMember)
      requires m.Cons? && Sorted(m) && KeysOfKind(m, true) && ValidEntries(m) && size == ArraySize(m)
      requires childValues == [] || Collected(m, size)
      modifies this
      ensures Ready() && indentString == old(indentString) && !addChildValues
      ensures document == old(document) + text
      ensures Spells([[LEFT_BRACKET]] + ElementTokensFrom(m, 0, style.CutsKeys(), options) + [[RIGHT_BRACKET]], text)
      ensures !indented
      ensures ElementsShow(style, m, 0, options) ==>
                text == Opening(style, indentString, isMember) + [LEFT_BRACKET] +
                        ElementLinesFrom(style, m, 0, options, indentString + style.Unit()) +
                        (NewLine(style, indentString) + [RIGHT_BRACKET])
      decreases EntriesSize(m), 6
    {
      hide Spells, ElementTokensFrom, ArraySize, Sorted, Collected, Settings;
      hide ElementsShow, ElementLinesFrom, Opening, NewLine;
      hide AllSpaces, Ready, IsSolidEnd, AtEnd, AtStart, Deep;
      BracketEnds();
      ghost var before := indentString;
      ghost var space := WriteWithIndent([LEFT_BRACKET]);
      Indent();
      ghost var body := WriteLines(m, size);
      Unindent(before);
      ghost var last := WriteWithIndent([RIGHT_BRACKET]);
      text := space + [LEFT_BRACKET] + body + (last + [RIGHT_BRACKET]);
      BracketedSpells(LEFT_BRACKET, space, ElementTokensFrom(m, 0, style.CutsKeys(), options), body, last,
                      RIGHT_BRACKET);
    }

    /** All slots of the array, in order, are in `childValues`. */
    ghost predicate Collected(m: Entries, size: nat)
      reads this`childValues
    {
      SlotsAreLeaves(m, size) && childValues == ChildTexts(m, 0, size, options)
    }

    /**
     Whether an array takes several lines: it would pass the margin, or has containers in it that are
     not empty. Afterwards nothing is collected, or the array has only leaves and all of them are; the
     latter always when one line is enough.
     */
    method IsMultilineArray(m: Entries, size: nat) returns (isMultiLine: bool)
      requires Settings() && Ready() && !addChildValues && !(style.Built? && style.allComments)
      requires m.Cons? && Sorted(m) && KeysOfKind(m, true) && ValidEntries(m) && size == ArraySize(m)
      modifies this
      ensures Ready() && indentString == old(indentString) && !addChildValues && document == old(document) &&
              indented == old(indented)
      ensures isMultiLine <==>
              size * 3 >= RIGHT_MARGIN || !SlotsAreLeaves(m, size) ||
                  4 + (size - 1) * 2 + TotalLength(ChildTexts(m, 0, size, options)) >= RIGHT_MARGIN
      ensures childValues == [] || Collected(m, size)
      ensures !isMultiLine ==> Collected(m, size)
      decreases EntriesSize(m), 3
    {
      hide LeafText, ChildTexts, Find, Sorted, TextOf, Shows, AtStart, IsLeaf, TotalLength, Get;
      isMultiLine := size * 3 >= RIGHT_MARGIN;
      childValues := [];
      var index := 0;
      while index < size && !isMultiLine
        invariant 0 <= index <= size
        invariant Ready() && !addChildValues && indentString == old(indentString) && document == old(document) &&
                  indented == old(indented)
        invariant childValues == []
        invariant isMultiLine <==> size * 3 >= RIGHT_MARGIN || !SlotsAreLeaves(m, index)
      {
        var childValue := Get(m, Index(index));
        SlotValid(m, Index(index));
        LeafBySize(childValue);
        isMultiLine := isMultiLine || ((childValue.data.Array? || childValue.data.Object?) &&
                                       ValueSize(childValue) > 0);
        index := index + 1;
      }
      if !isMultiLine {
        addChildValues := true;
        var lineLength := 4 + (size - 1) * 2;
        index := 0;
        NoChildTexts(m, options);
        while index < size
          invariant 0 <= index <= size
          invariant Ready() && addChildValues && indentString == old(indentString) && document == old(document) &&
                    indented == old(indented)
          invariant SlotsAreLeaves(m, size) && childValues == ChildTexts(m, 0, index, options)
          invariant lineLength == 4 + (size - 1) * 2 + TotalLength(childValues)
        {
          SlotValid(m, Index(index));
          SizeOfGet(m, Index(index));
          ghost var piece := WriteValue(Get(m, Index(index)), false);
          TotalLengthGrows(ChildTexts(m, 0, index, options), LeafText(Get(m, Index(index)), options));
          ChildTextsGrow(m, 0, index, options);
          ChildTextsAt(m, 0, index + 1, options, index);
          lineLength := lineLength + |childValues[index]|;
          index := index + 1;
        }
        addChildValues := false;
        isMultiLine := isMultiLine || lineLength >= RIGHT_MARGIN;
      }
    }

    /** The loop over the elements when each has its own line. */
    method WriteLines(m: Entries, size: nat) returns (ghost text: bytes)
      requires Settings() && Ready() && !addChildValues
      requires m.Cons? && Sorted(m) && KeysOfKind(m, true) && ValidEntries(m) && size == ArraySize(m)
      requires childValues == [] || Collected(m, size)
      requires AtEnd() && Deep()
      modifies this
      ensures Ready() && indentString == old(indentString) && !addChildValues
      ensures document == old(document) + text && Spells(ElementTokensFrom(m, 0, style.CutsKeys(), options), text)
      ensures ElementsShow(style, m, 0, options) ==>
              AtEnd() &&
              text == ElementLinesFrom(style, m, 0, options, indentString)
      decreases EntriesSize(m), 5
    {
      hide Spells, ElementTokensFrom, TokensOf, Find, Size, LeafText, ChildTexts, ArraySize, Settings, Ready,
           Collected, Get, PastSlot, Sorted;
      hide TextOf, Shows, ElementsShow, ElementLinesFrom, JoinedFrom, NewLine, AtEnd, Deep, SameFrom;
      ghost var cut := style.CutsKeys();
      ghost var all := ElementTokensFrom(m, 0, cut, options);
      ghost var lines := ElementLinesFrom(style, m, 0, options, indentString);
      ghost var rest := m;
      ghost var done: seq<bytes> := [];
      text := [];
      NothingSpells();
      StartOfArray(m);
      assert done + all == all;
      var hasChildValue := childValues != [];
      var index := 0;
      while true
        invariant 0 <= index < size && ArraySize(rest) == size
        invariant FromIndex(rest, index) && ValidEntries(rest) && rest.Cons? && SameFrom(rest, m, index)
        invariant Ready() && indentString == old(indentString) && !addChildValues
        invariant hasChildValue ==> Collected(m, size)
        invariant document == old(document) + text && Spells(done, text)
        invariant done + ElementTokensFrom(rest, index, cut, options) == all
        invariant Deep()
        invariant ElementsShow(style, m, 0, options) ==>
                    && AtEnd() && ElementsShow(style, rest, index, options)
                    && text + ElementLinesFrom(style, rest, index, options, indentString) == lines
        decreases size - index
      {
        ghost var piece := WriteElement(m, size, index, hasChildValue);
        ElementLine(m, rest, index, cut, options, done, text, piece, all);
        ElementLayout(style, m, rest, index, options, indentString, ElementsShow(style, m, 0, options), text, piece,
                      lines);
        text := text + piece;
        index := index + 1;
        if index == size {
          AfterValue();
          break;
        }
        WriteComma();
        done, text := done + (TokensOf(Get(m, Index(index - 1)), cut, options) + [[COMMA]]), text + [COMMA];
        rest := PastSlot(rest, index - 1);
      }
    }

    /** One element on a line: its collected text, or the value written afresh. */
    method WriteElement(m: Entries, size: nat, index: nat, hasChildValue: bool) returns (ghost text: bytes)
      requires Settings() && Ready() && !addChildValues && m.Cons? && ValidEntries(m) && index < size
      requires hasChildValue ==> Collected(m, size)
      requires Deep()
      modifies this
      ensures Ready() && indentString == old(indentString) && !addChildValues
      ensures hasChildValue ==> Collected(m, size)
      ensures document == old(document) + text
      ensures Valid(Get(m, Index(index))) && Spells(TokensOf(Get(m, Index(index)), style.CutsKeys(), options), text)
      ensures old(AtEnd()) && Shows(style, Get(m, Index(index)), options) ==>
                && AtEnd()
                && text == NewLine(style, indentString) +
                    TextOf(style, Get(m, Index(index)), options, indentString, false)
      decreases EntriesSize(m), 4
    {
      hide Spells, TokensOf, LeafText, Settings, ValidEntries, Get, ChildTexts, EntriesSize;
      hide TextOf, Shows, NewLine, Opening, IsSolidEnd, SpaceNeeded;
      BareFormats();
      var childValue := Get(m, Index(index));
      SlotValid(m, Index(index));
      SizeOfGet(m, Index(index));
      ghost var space;
      if hasChildValue {
        ChildTextsAt(m, 0, size, options, index);
        ShownLeaf(style, childValue, options, indentString, false);
        space := WriteWithIndent(childValues[index]);
        LeafOfArray(m, index, size, style.CutsKeys(), options);
        text := space + LeafText(childValue, options);
      } else {
        space := WriteIndentIfNeeded();
        indented := true;
        ghost var piece := WriteValue(childValue, false);
        indented := false;
        text := space + piece;
      }
      if style.OnString? && Shows(style, childValue, options) && old(AtEnd()) {
        ShownTextEndsSolid(style, childValue, options, indentString, false);
        EndsLike(old(document) + space, TextOf(style, childValue, options, indentString, false));
      }
      SpaceFirst(space, TokensOf(childValue, style.CutsKeys(), options), text[|space|..]);
      assert text == space + text[|space|..];
    }

    /** All elements on one line, from their collected texts. */
    method WriteOneLine(m: Entries, size: nat) returns (ghost text: bytes)
      requires Settings() && !addChildValues
      requires m.Cons? && Sorted(m) && KeysOfKind(m, true) && ValidEntries(m) && size == ArraySize(m)
      requires Collected(m, size)
      modifies this`document
      ensures document == old(document) + text
      ensures Spells([[LEFT_BRACKET]] + ElementTokensFrom(m, 0, style.CutsKeys(), options) + [[RIGHT_BRACKET]], text)
      ensures text == [LEFT_BRACKET] + style.Padding() + JoinedFrom(style, m, 0, options) + style.Padding() +
              [RIGHT_BRACKET]
    {
      hide Spells, ElementTokensFrom, Collected, Sorted, Settings, KeysOfKind, ValidEntries, ArraySize, JoinedFrom;
      ghost var before := document;
      ghost var all := ElementTokensFrom(m, 0, style.CutsKeys(), options);
      ghost var pad := style.Padding();
      document := document + [LEFT_BRACKET] + style.Padding();
      ghost var body := WriteJoined(m, size);
      document := document + style.Padding() + [RIGHT_BRACKET];
      text := [] + [LEFT_BRACKET] + (pad + body) + (pad + [RIGHT_BRACKET]);
      OneLineText(before, pad, body);
      SpaceFirst(pad, all, body);
      BracketedSpells(LEFT_BRACKET, [], all, pad + body, pad, RIGHT_BRACKET);
    }

    /** The collected texts with separators. */
    method WriteJoined(m: Entries, size: nat) returns (ghost body: bytes)
      requires Settings()
      requires m.Cons? && Sorted(m) && KeysOfKind(m, true) && ValidEntries(m) && size == ArraySize(m)
      requires Collected(m, size)
      modifies this`document
      ensures document == old(document) + body && body == JoinedFrom(style, m, 0, options)
      ensures Spells(ElementTokensFrom(m, 0, style.CutsKeys(), options), body)
    {
      hide Spells, ElementTokensFrom, TokensOf, Find, Size, LeafText, ChildTexts, ArraySize, PastSlot, Get, Sorted,
           JoinedFrom;
      hide SameFrom, Settings, IsLeaf, JoinText, CommaTokens;
      BareFormats();
      ghost var line := JoinedFrom(style, m, 0, options);
      ghost var cut := style.CutsKeys();
      ghost var all := ElementTokensFrom(m, 0, cut, options);
      ghost var rest := m;
      ghost var done: seq<bytes> := [];
      body := [];
      NothingSpells();
      StartOfArray(m);
      NoSeparator();
      assert done + ([] + all) == all;
      var index := 0;
      while index < size
        invariant 0 <= index <= size && (rest.Cons? <==> index < size) && (rest.Cons? ==> ArraySize(rest) == size)
        invariant FromIndex(rest, index) && ValidEntries(rest) && SameFrom(rest, m, index)
        invariant document == old(document) + body && Spells(done, body)
        invariant done + (CommaTokens(0 < index < size) + ElementTokensFrom(rest, index, cut, options)) == all
        invariant body + (JoinText(0 < index < size) + JoinedFrom(style, rest, index, options)) == line
      {
        if index > 0 {
          document := document + [COMMA, SPACE];
        }
        ChildTextsAt(m, 0, size, options, index);
        document := document + childValues[index];
        JoinLine(m, rest, index, size, cut, options, done, body, all);
        JoinStep(style, m, rest, index, size, options, body, line);
        done := done + (CommaTokens(0 < index) + TokensOf(Get(m, Index(index)), cut, options));
        body := body + JoinText(0 < index) + LeafText(Get(m, Index(index)), options);
        rest := PastSlot(rest, index);
        index := index + 1;
      }
      EmptyTokens(cut, options);
      NoLines(style, options, []);
      assert body + ([] + []) == body;
      assert rest == Nil && done + ([] + []) == done;
    }
  }

  lemma {:induction false} StartOfArray(m: Entries)
    requires Sorted(m) && KeysOfKind(m, true)
    ensures FromIndex(m, 0) && SameFrom(m, m, 0) && (m.Cons? <==> 0 < ArraySize(m))
  {
    ArrayStart(m);
  }

  /** One turn of the loop over elements, where the leaves show. */
  lemma {:induction false} ElementLayout(style: Style, m: Entries, rest: Entries, index: nat, o: Options, indent: bytes,
                                         show: bool, text: bytes, piece: bytes, lines: bytes)
    requires FromIndex(rest, index) && ValidEntries(rest) && rest.Cons? && SameFrom(rest, m, index) &&
             Valid(Get(m, Index(index)))
    requires show ==>
             ElementsShow(style, rest, index, o) &&
             text + ElementLinesFrom(style, rest, index, o, indent) == lines
    requires show && Shows(style, Get(m, Index(index)), o) ==>
               piece == NewLine(style, indent) + TextOf(style, Get(m, Index(index)), o, indent, false)
    ensures
      var next := PastSlot(rest, index);
      && FromIndex(next, index + 1) && ValidEntries(next)
      && (show ==> Shows(style, Get(m, Index(index)), o) && ElementsShow(style, next, index + 1, o))
      && (show && next.Nil? ==> text + piece == lines)
      && (show && next.Cons? ==> text + piece + [COMMA] + ElementLinesFrom(style, next, index + 1, o, indent) == lines)
  {
    hide TextOf, Shows, ElementsShow, ElementLinesFrom, JoinedFrom, NewLine, Sorted, Get, PastSlot;
    ElementLinesStep(style, m, rest, index, o, indent);
    NoLines(style, o, indent);
    if show {
      var next := PastSlot(rest, index);
      LineAdded(text, piece, next.Cons?, ElementLinesFrom(style, next, index + 1, o, indent), lines);
    }
  }

  /** One turn of the loop over the collected texts. */
  lemma {:induction false} JoinLine(m: Entries, rest: Entries, index: nat, size: nat, cut: bool, o: Options,
                 done: seq<bytes>, body: bytes, all: seq<bytes>)
    requires FormatsBare(o) && ValidEntries(m) && SlotsAreLeaves(m, size) && index < size == ArraySize(rest)
    requires FromIndex(rest, index) && ValidEntries(rest) && rest.Cons? && SameFrom(rest, m, index)
    requires Spells(done, body)
    requires done + (CommaTokens(0 < index) + ElementTokensFrom(rest, index, cut, o)) == all
    ensures
      var next, child := PastSlot(rest, index), Get(m, Index(index));
      && Valid(child) && FromIndex(next, index + 1) && ValidEntries(next) && SameFrom(next, m, index + 1)
      && (next.Cons? <==> index + 1 < size) && (next.Cons? ==> ArraySize(next) == size)
      && Spells(done + (CommaTokens(0 < index) + TokensOf(child, cut, o)),
                body + JoinText(0 < index) + LeafText(child, o))
      && done + (CommaTokens(0 < index) + TokensOf(child, cut, o)) +
         (CommaTokens(index + 1 < size) + ElementTokensFrom(next, index + 1, cut, o)) == all
  {
    hide Spells, TokensOf, ElementTokensFrom, FromIndex, Get, PastSlot, ArraySize, LeafText, FormatsBare;
    SlotStep(m, rest, index);
    ElementTokensStep(m, rest, index, cut, o);
    LeafOfArray(m, index, size, cut, o);
    var next, child := PastSlot(rest, index), Get(m, Index(index));
    JoinSpells(done, body, 0 < index, TokensOf(child, cut, o), LeafText(child, o));
    RegroupTokens(done, CommaTokens(0 < index), TokensOf(child, cut, o),
                  CommaTokens(next.Cons?) + ElementTokensFrom(next, index + 1, cut, o));
  }

  lemma {:induction false} JoinStep(style: Style, m: Entries, rest: Entries, index: nat, size: nat, o: Options,
                                    body: bytes, line: bytes)
    requires ValidEntries(m) && SlotsAreLeaves(m, size) && index < size == ArraySize(rest)
    requires FromIndex(rest, index) && ValidEntries(rest) && rest.Cons? && SameFrom(rest, m, index)
    requires body + (JoinText(0 < index) + JoinedFrom(style, rest, index, o)) == line
    ensures
      var next, leaf := PastSlot(rest, index), LeafText(Get(m, Index(index)), o);
      && FromIndex(next, index + 1) && ValidEntries(next)
      && body + JoinText(0 < index) + leaf + (JoinText(index + 1 < size) + JoinedFrom(style, next, index + 1, o)) ==
          line
  {
    hide FromIndex, Get, PastSlot, ArraySize, LeafText, JoinText, JoinedFrom, IsLeaf;
    SlotStep(m, rest, index);
    ElementLinesStep(style, m, rest, index, o, []);
    var next, child := PastSlot(rest, index), Get(m, Index(index));
    ShownLeaf(style, child, o, [], false);
    var leaf, later := LeafText(child, o), JoinText(next.Cons?) + JoinedFrom(style, next, index + 1, o);
    assert body + (JoinText(0 < index) + (leaf + JoinText(next.Cons?) + JoinedFrom(style, next, index + 1, o))) ==
           body + JoinText(0 < index) + leaf + later;
  }

  lemma {:induction false} OneLineText(before: bytes, pad: bytes, body: bytes)
    ensures [LEFT_BRACKET] + pad + body + pad + [RIGHT_BRACKET] ==
            [] + [LEFT_BRACKET] + (pad + body) + (pad + [RIGHT_BRACKET])
    ensures before + [LEFT_BRACKET] + pad + body + pad + [RIGHT_BRACKET] ==
            before + ([] + [LEFT_BRACKET] + (pad + body) + (pad + [RIGHT_BRACKET]))
  {
    assert [] + [LEFT_BRACKET] + (pad + body) + (pad + [RIGHT_BRACKET]) ==
           [LEFT_BRACKET] + pad + body + pad + [RIGHT_BRACKET];
  }

  lemma {:induction false} LeafOfArray(m: Entries, index: nat, size: nat, cut: bool, o: Options)
    requires FormatsBare(o) && ValidEntries(m) && SlotsAreLeaves(m, size) && index < size
    ensures Valid(Get(m, Index(index)))
    ensures Spells(TokensOf(Get(m, Index(index)), cut, o), LeafText(Get(m, Index(index)), o))
  {
    SlotValid(m, Index(index));
    LeafSpells(Get(m, Index(index)), cut, o);
  }

  /** What one member with the comma after it adds to the tokens. */
  ghost function MemberLineTokens(rest: Entries, cut: bool, o: Options): seq<bytes>
    requires rest.Cons? && ValidEntries(rest)
  {
    [Quoted(ShownName(NameOf(rest.key), cut)), [COLON]] + TokensOf(rest.value, cut, o) + [[COMMA]]
  }

  /** One turn of the loop over members: with the last one the tokens are complete. */
  lemma {:induction false} MemberLine(rest: Entries, cut: bool, o: Options, done: seq<bytes>, text: bytes,
                                      piece: bytes, all: seq<bytes>)
    requires rest.Cons? && ValidEntries(rest) && rest.key.Name?
    requires Spells(done, text) && done + MemberTokensFrom(rest, cut, o) == all
    requires Spells([Quoted(ShownName(NameOf(rest.key), cut)), [COLON]] + TokensOf(rest.value, cut, o), piece)
    ensures ValidEntries(rest.rest)
    ensures rest.rest.Nil? ==> Spells(all, text + piece)
    ensures rest.rest.Cons? ==>
              && Spells(done + MemberLineTokens(rest, cut, o), text + piece + [COMMA])
              && done + MemberLineTokens(rest, cut, o) + MemberTokensFrom(rest.rest, cut, o) == all
  {
    hide Spells, TokensOf, Quoted, MemberTokensFrom;
    MemberTokensStep(rest, cut, o);
    var name := [Quoted(ShownName(NameOf(rest.key), cut)), [COLON]];
    LineSpells(done, text, name + TokensOf(rest.value, cut, o), piece, rest.rest.Cons?,
               MemberTokensFrom(rest.rest, cut, o));
    assert name + (TokensOf(rest.value, cut, o) + (CommaTokens(rest.rest.Cons?) +
                                                   MemberTokensFrom(rest.rest, cut, o))) ==
           name + TokensOf(rest.value, cut, o) + (CommaTokens(rest.rest.Cons?) + MemberTokensFrom(rest.rest, cut, o));
    EmptyTokens(cut, o);
  }

  lemma {:induction false} ElementLine(m: Entries, rest: Entries, index: nat, cut: bool, o: Options,
                    done: seq<bytes>, text: bytes, piece: bytes, all: seq<bytes>)
    requires FromIndex(rest, index) && ValidEntries(rest) && rest.Cons? && SameFrom(rest, m, index)
    requires Spells(done, text) && done + ElementTokensFrom(rest, index, cut, o) == all
    requires Valid(Get(m, Index(index))) && Spells(TokensOf(Get(m, Index(index)), cut, o), piece)
    ensures
      var next := PastSlot(rest, index);
      && FromIndex(next, index + 1) && ValidEntries(next) && SameFrom(next, m, index + 1)
      && (next.Cons? <==> index + 1 < ArraySize(rest))
      && (next.Nil? ==> Spells(all, text + piece))
      && (next.Cons? ==>
            && ArraySize(next) == ArraySize(rest)
            && Spells(done + (TokensOf(Get(m, Index(index)), cut, o) + [[COMMA]]), text + piece + [COMMA])
            && done + (TokensOf(Get(m, Index(index)), cut, o) + [[COMMA]]) +
                ElementTokensFrom(next, index + 1, cut, o) == all)
  {
    hide Spells, TokensOf, ElementTokensFrom, FromIndex, Get, PastSlot, ArraySize;
    SlotStep(m, rest, index);
    ElementTokensStep(m, rest, index, cut, o);
    var next := PastSlot(rest, index);
    LineSpells(done, text, TokensOf(Get(m, Index(index)), cut, o), piece, next.Cons?,
               ElementTokensFrom(next, index + 1, cut, o));
    EmptyTokens(cut, o);
  }

  lemma {:induction false} LineSpells(done: seq<bytes>, text: bytes, toks: seq<bytes>, piece: bytes, more: bool,
                                      tail: seq<bytes>)
    requires Spells(done, text) && Spells(toks, piece)
    ensures !more && tail == [] ==> Spells(done + (toks + (CommaTokens(more) + tail)), text + piece)
    ensures more ==> Spells(done + (toks + [[COMMA]]), text + piece + [COMMA])
    ensures more ==> done + (toks + [[COMMA]]) + tail == done + (toks + (CommaTokens(more) + tail))
  {
    hide Spells;
    SpellsConcat(done, text, toks, piece);
    CommaSpells(done + toks, text + piece);
    assert done + toks + [[COMMA]] == done + (toks + [[COMMA]]);
    assert !more && tail == [] ==> toks + (CommaTokens(more) + tail) == toks;
  }

  lemma {:induction false} JoinSpells(done: seq<bytes>, body: bytes, more: bool, toks: seq<bytes>, leaf: bytes)
    requires Spells(done, body) && Spells(toks, leaf)
    ensures Spells(done + (CommaTokens(more) + toks), body + JoinText(more) + leaf)
  {
    hide Spells;
    if more {
      CommaSpells(done, body);
      SpaceFirst([SPACE], toks, leaf);
      SpellsConcat(done + [[COMMA]], body + [COMMA], toks, [SPACE] + leaf);
      assert done + [[COMMA]] + toks == done + ([[COMMA]] + toks);
      assert body + [COMMA] + ([SPACE] + leaf) == body + [COMMA, SPACE] + leaf;
    } else {
      SpellsConcat(done, body, toks, leaf);
      assert [] + toks == toks && body + [] + leaf == body + leaf;
    }
  }

  lemma NoChildTexts(m: Entries, o: Options)
    ensures ChildTexts(m, 0, 0, o) == [] && TotalLength([]) == 0
  {
  }

  lemma {:induction false} SpaceFirst(space: bytes, toks: seq<bytes>, text: bytes)
    requires AllSpaces(space) && Spells(toks, text)
    ensures Spells(toks, space + text)
  {
    SpacesSpell(space);
    SpellsConcat([], space, toks, text);
    assert [] + toks == toks;
  }

  lemma {:induction false} SpaceAfterColon(document: bytes, indent: bytes)
    ensures SpaceNeeded(document + SPACED_COLON, indent) == []
  {
    assert (document + SPACED_COLON)[|document + SPACED_COLON| - 1] == SPACE;
  }

  lemma NoSeparator()
    ensures CommaTokens(false) == [] && JoinText(false) == [] && JoinText(true) == [COMMA, SPACE]
  {
  }

  lemma BracketEnds()
    ensures IsSolidEnd([LEFT_BRACE]) && IsSolidEnd([LEFT_BRACKET])
  {
  }

  // Spelling steps.

  lemma {:induction false} NothingSpells()
    ensures Spells([], [])
  {
    SpacesSpell([]);
  }

  lemma {:induction false} SpaceAndToken(space: bytes, x: bytes)
    requires AllSpaces(space) && x != [] && !IsSpace(x[0])
    ensures Spells([x], space + x)
  {
    hide Spells;
    SpacesSpell(space);
    TokenSpells(x);
    SpellsConcat([], space, [x], x);
    assert [] + [x] == [x];
  }

  lemma {:induction false} KeySpells(space: bytes, name: bytes, colon: bytes)
    requires AllSpaces(space) && Spells([[COLON]], colon)
    ensures Spells([Quoted(name), [COLON]], space + Quoted(name) + colon)
  {
    hide Spells, EscapeText;
    SpaceAndToken(space, Quoted(name));
    SpellsConcat([Quoted(name)], space + Quoted(name), [[COLON]], colon);
    assert [Quoted(name)] + [[COLON]] == [Quoted(name), [COLON]];
  }

  lemma {:induction false} CommaSpells(toks: seq<bytes>, text: bytes)
    requires Spells(toks, text)
    ensures Spells(toks + [[COMMA]], text + [COMMA])
  {
    TokenSpells([COMMA]);
    SpellsConcat(toks, text, [[COMMA]], [COMMA]);
  }

  lemma {:induction false} BracketedSpells(open: byte, space: bytes, toks: seq<bytes>, body: bytes, last: bytes,
                                           close: byte)
    requires AllSpaces(space) && AllSpaces(last) && Spells(toks, body) && !IsSpace(open) && !IsSpace(close)
    ensures Spells([[open]] + toks + [[close]], space + [open] + body + (last + [close]))
  {
    hide Spells;
    SpaceAndToken(space, [open]);
    SpaceAndToken(last, [close]);
    SpellsConcat([[open]], space + [open], toks, body);
    SpellsConcat([[open]] + toks, space + [open] + body, [[close]], last + [close]);
  }

  lemma RegroupTokens(a: seq<bytes>, b: seq<bytes>, c: seq<bytes>, d: seq<bytes>)
    ensures a + (b + (c + d)) == a + (b + c) + d
  {
  }

  lemma ObjectTokens(value: Value, cut: bool, o: Options)
    requires Valid(value) && value.data.Object?
    ensures TokensOf(value, cut, o) == [[LEFT_BRACE]] + MemberTokensFrom(value.data.entries, cut, o) + [[RIGHT_BRACE]]
  {
  }

  lemma ArrayTokens(value: Value, cut: bool, o: Options)
    requires Valid(value) && value.data.Array?
    ensures TokensOf(value, cut, o) == [[LEFT_BRACKET]] + ElementTokensFrom(value.data.entries, 0, cut, o) +
            [[RIGHT_BRACKET]]
  {
  }
}
