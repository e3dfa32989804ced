/**
 The layout of the styled writers (json_writer.cpp), described from the tree: which arrays fit on one
 line, where lines begin and how far they are indented. StyledWriter, StyledStreamWriter and
 BuiltStyledStreamWriter differ in a handful of places; a style selects among them.
 */
module JsonStyledText {
  import opened Bytes
  import opened JsonNumber
  import opened JsonString
  import opened JsonValue
  import opened JsonFastWriter
  import opened JsonTokens

  const SPACED_COLON: bytes := [SPACE, COLON, SPACE]
  const THREE_SPACES: bytes := [SPACE, SPACE, SPACE]
  const RIGHT_MARGIN: int := 74

  /** Which writer: on a string, on a stream, or on a stream with symbols set by a builder. */
  datatype Style =
    | OnString
    | OnStream(indentation: bytes)
    | Built(indentation: bytes, allComments: bool, colonSymbol: bytes, nullSymbol: bytes, endingLineFeedSymbol: bytes)
  {
    /** Two writers quote member names as C strings. */
    predicate CutsKeys() {
      !Built?
    }

    function Colon(): bytes {
      if Built? then colonSymbol else SPACED_COLON
    }

    function NullText(): bytes {
      if Built? then nullSymbol else NULL_TEXT
    }

    function Ending(): bytes {
      if Built? then endingLineFeedSymbol else [LINE_FEED]
    }

    function Unit(): bytes {
      if OnString? then THREE_SPACES else indentation
    }

    /** Padding inside the brackets of a one-line array. */
    function Padding(): bytes {
      if Built? && indentation == [] then [] else [SPACE]
    }

    /** White space for indentation, and symbols as the builder sets them. */
    ghost predicate Valid() {
      && AllSpaces(Unit()) && AllSpaces(Ending())
      && Spells([[COLON]], Colon())
      && (NullText() == [] || NullText() == NULL_TEXT)
    }
  }

  /** What a builder makes of its settings: the colon, the null symbol and no ending. */
  function BuilderStyle(indentation: bytes, keepComments: bool, yaml: bool, dropNulls: bool): Style {
    Built(indentation, keepComments, if yaml then [58, 32] else if indentation == [] then [58] else [32, 58, 32],
          if dropNulls then [] else [110, 117, 108, 108], [])
  }

  /** Whatever the settings, with white space for indentation: colon and null symbol read back. */
  lemma {:induction false} BuilderStyleValid(indentation: bytes, keepComments: bool, yaml: bool, dropNulls: bool)
    requires AllSpaces(indentation)
    ensures BuilderStyle(indentation, keepComments, yaml, dropNulls).Valid()
  {
    hide Spells;
    TokenSpells([COLON]);
    SpacesSpell([SPACE]);
    assert [[COLON]] + [] == [[COLON]] == [] + [[COLON]];
    assert [COLON] + [SPACE] == [COLON, SPACE] && [SPACE] + [COLON, SPACE] == [SPACE, COLON, SPACE];
    SpellsConcat([[COLON]], [COLON], [], [SPACE]);
    SpellsConcat([], [SPACE], [[COLON]], [COLON, SPACE]);
  }

  // --------------------------------------------------------------------------- What is shown

  /** The tree with each member name cut at its first zero byte. */
  function CutKeys(w: Value): Value {
    Plain(match w.data
          case Array(m) => Array(CutKeysOf(m))
          case Object(m) => Object(CutKeysOf(m))
          case d => d)
  }

  function CutKey(k: Key): Key {
    match k
    case Name(s) => Name(CutAtNul(s))
    case Index(_) => k
  }

  function CutKeysOf(m: Entries): Entries {
    match m
    case Nil => Nil
    case Cons(k, v, rest) => Cons(CutKey(k), CutKeys(v), CutKeysOf(rest))
  }

  function Shown(w: Value, cut: bool): Value {
    if cut then CutKeys(w) else w
  }

  function ShownEntries(m: Entries, cut: bool): Entries {
    if cut then CutKeysOf(m) else m
  }

  function ShownName(name: bytes, cut: bool): bytes {
    if cut then CutAtNul(name) else name
  }

  /** A scalar or an empty container: what the one-line form of an array may contain. */
  predicate IsLeaf(v: Value) {
    match v.data
    case Array(m) => m.Nil?
    case Object(m) => m.Nil?
    case _ => true
  }

  function LeafText(v: Value, o: Options): bytes {
    match v.data
    case Array(_) => [LEFT_BRACKET, RIGHT_BRACKET]
    case Object(_) => [LEFT_BRACE, RIGHT_BRACE]
    case d => ScalarText(d, o)
  }

  // --------------------------------------------------------------------------- Lines

  /** The start of a line; a builder without indentation drops it. */
  function NewLine(style: Style, indent: bytes): bytes {
    if style.Built? && style.indentation == [] then [] else [LINE_FEED] + indent
  }

  /** What comes before an opening bracket: the stream writers put that of a member on a new line. */
  function Opening(style: Style, indent: bytes, isMember: bool): bytes {
    if isMember && !style.OnString? then NewLine(style, indent) else []
  }

  /** The string writer starts a line unless its document ends in a space or a line feed. */
  function SpaceNeeded(document: bytes, indent: bytes): bytes {
    if document == [] then indent
    else
      var last := document[|document| - 1];
      if last == SPACE then [] else if last == LINE_FEED then indent else [LINE_FEED] + indent
  }

  predicate AllLeaves(m: Entries) {
    match m
    case Nil => true
    case Cons(_, v, rest) => IsLeaf(v) && AllLeaves(rest)
  }

  function TextLength(m: Entries, o: Options): nat {
    match m
    case Nil => 0
    case Cons(_, v, rest) => |LeafText(v, o)| + TextLength(rest, o)
  }

  /** An array has a line for each element when it has containers among them or would pass the margin. */
  predicate TakesLines(style: Style, m: Entries, o: Options) {
    || (style.Built? && style.allComments)
    || Count(m) * 3 >= RIGHT_MARGIN
    || !AllLeaves(m)
    || 4 + (Count(m) - 1) * 2 + TextLength(m, o) >= RIGHT_MARGIN
  }

  /** The leaves of a one-line array. */
  function Joined(m: Entries, o: Options): bytes {
    match m
    case Nil => []
    case Cons(_, v, rest) => LeafText(v, o) + JoinText(rest.Cons?) + Joined(rest, o)
  }

  function JoinText(more: bool): bytes {
    if more then [COMMA, SPACE] else []
  }

  /**
   The layout of a tree without missing slots at some indentation: a leaf or a one-line array as it is, any other
   container with each child on a line of its own, one unit further in.
   */
  function StyledText(style: Style, w: Value, o: Options, indent: bytes, isMember: bool): bytes
    decreases w, 0
  {
    if IsLeaf(w) then LeafText(w, o)
    else
      match w.data
      case Object(m) =>
        Opening(style, indent, isMember) + [LEFT_BRACE] + MemberLines(style, m, o, indent + style.Unit()) +
        (NewLine(style, indent) + [RIGHT_BRACE])
      case Array(m) =>
        if TakesLines(style, m, o) then
          Opening(style, indent, isMember) + [LEFT_BRACKET] + ElementLines(style, m, o, indent + style.Unit()) +
          (NewLine(style, indent) + [RIGHT_BRACKET])
        else [LEFT_BRACKET] + style.Padding() + Joined(m, o) + style.Padding() + [RIGHT_BRACKET]
      case _ => []
  }

  function MemberLines(style: Style, m: Entries, o: Options, indent: bytes): bytes
    decreases m, 0
  {
    match m
    case Nil => []
    case Cons(k, v, rest) =>
      NewLine(style, indent) + Quoted(NameOf(k)) + style.Colon() + StyledText(style, v, o, indent, true) +
      CommaIf(rest.Cons?) + MemberLines(style, rest, o, indent)
  }

  function ElementLines(style: Style, m: Entries, o: Options, indent: bytes): bytes
    decreases m, 0
  {
    match m
    case Nil => []
    case Cons(_, v, rest) =>
      NewLine(style, indent) + StyledText(style, v, o, indent, false) + CommaIf(rest.Cons?) +
      ElementLines(style, rest, o, indent)
  }

  /** Every leaf prints as something: no null strings, and no double formatted as nothing. */
  predicate Showing(w: Value, o: Options) {
    if IsLeaf(w) then LeafText(w, o) != []
    else
      match w.data
      case Array(m) => ShowingAll(m, o)
      case Object(m) => ShowingAll(m, o)
      case _ => true
  }

  predicate ShowingAll(m: Entries, o: Options) {
    match m
    case Nil => true
    case Cons(_, v, rest) => Showing(v, o) && ShowingAll(rest, o)
  }

  /** A one-line array, its brackets included, stays inside the margin. */
  lemma {:induction false} OneLineFits(style: Style, m: Entries, o: Options, indent: bytes, isMember: bool)
    requires m.Cons? && !TakesLines(style, m, o)
    ensures |StyledText(style, Plain(Array(m)), o, indent, isMember)| < 74
  {
    JoinedLength(m, o);
  }

  lemma {:induction false} JoinedLength(m: Entries, o: Options)
    requires m.Cons?
    ensures |Joined(m, o)| == (Count(m) - 1) * 2 + TextLength(m, o)
  {
    hide LeafText;
    if m.rest.Cons? {
      JoinedLength(m.rest, o);
    } else {
      assert Count(m.rest) == 0 && Joined(m.rest, o) == [];
    }
  }

  // --------------------------------------------------------------------------- Trees as they are shown

  /** The layout of any well-formed tree. */
  function TextOf(style: Style, v: Value, o: Options, indent: bytes, isMember: bool): bytes
    requires Valid(v)
  {
    StyledText(style, Shown(FilledValue(v), style.CutsKeys()), o, indent, isMember)
  }

  function ElementLinesFrom(style: Style, m: Entries, i: nat, o: Options, indent: bytes): bytes
    requires KeysOfKind(m, true) && ValidEntries(m)
  {
    ElementLines(style, ShownEntries(FilledEntries(m, i), style.CutsKeys()), o, indent)
  }

  function JoinedFrom(style: Style, m: Entries, i: nat, o: Options): bytes
    requires KeysOfKind(m, true) && ValidEntries(m)
  {
    Joined(ShownEntries(FilledEntries(m, i), style.CutsKeys()), o)
  }

  function MemberLinesFrom(style: Style, m: Entries, o: Options, indent: bytes): bytes
    requires ValidEntries(m)
  {
    MemberLines(style, ShownEntries(FilledMembers(m), style.CutsKeys()), o, indent)
  }

  /** Whether the array takes lines, missing slots counting as nulls. */
  predicate ArrayTakesLines(style: Style, m: Entries, o: Options)
    requires KeysOfKind(m, true) && ValidEntries(m)
  {
    TakesLines(style, ShownEntries(FilledEntries(m, 0), style.CutsKeys()), o)
  }

  /** The string writer looks at the last character, so that it depends on every leaf showing. */
  predicate Shows(style: Style, v: Value, o: Options)
    requires Valid(v)
  {
    style.OnString? ==> Showing(Shown(FilledValue(v), style.CutsKeys()), o)
  }

  predicate ElementsShow(style: Style, m: Entries, i: nat, o: Options)
    requires KeysOfKind(m, true) && ValidEntries(m)
  {
    style.OnString? ==> ShowingAll(ShownEntries(FilledEntries(m, i), style.CutsKeys()), o)
  }

  predicate MembersShow(style: Style, m: Entries, o: Options)
    requires ValidEntries(m)
  {
    style.OnString? ==> ShowingAll(ShownEntries(FilledMembers(m), style.CutsKeys()), o)
  }

  lemma {:induction false} ShownLeaf(style: Style, v: Value, o: Options, indent: bytes, isMember: bool)
    requires Valid(v)
    ensures IsLeaf(Shown(FilledValue(v), style.CutsKeys())) <==> IsLeaf(v)
    ensures IsLeaf(v) ==> LeafText(Shown(FilledValue(v), style.CutsKeys()), o) == LeafText(v, o)
    ensures IsLeaf(v) ==> TextOf(style, v, o, indent, isMember) == LeafText(v, o)
    ensures IsLeaf(v) && Shows(style, v, o) && style.OnString? ==> LeafText(v, o) != []
  {
    var w := Shown(FilledValue(v), style.CutsKeys());
    if v.data.Array? {
      ShownArray(v, style.CutsKeys());
      assert FilledEntries(v.data.entries, 0).Nil? <==> v.data.entries.Nil?;
      assert w.data.entries.Nil? <==> v.data.entries.Nil?;
    } else if v.data.Object? {
      ShownObject(v, style.CutsKeys());
      assert FilledMembers(v.data.entries).Nil? <==> v.data.entries.Nil?;
      assert w.data.entries.Nil? <==> v.data.entries.Nil?;
    } else {
      assert w.data == v.data;
    }
  }

  lemma {:induction false} ObjectText(style: Style, v: Value, o: Options, indent: bytes, isMember: bool)
    requires Valid(v) && v.data.Object? && v.data.entries.Cons?
    ensures TextOf(style, v, o, indent, isMember) ==
            Opening(style, indent, isMember) + [LEFT_BRACE] +
                MemberLinesFrom(style, v.data.entries, o, indent + style.Unit()) +
            (NewLine(style, indent) + [RIGHT_BRACE])
    ensures Shows(style, v, o) ==> MembersShow(style, v.data.entries, o)
  {
    hide MemberLines, Opening, NewLine, CutKeys;
    ShownLeaf(style, v, o, indent, isMember);
    ShownObject(v, style.CutsKeys());
  }

  lemma ShownObject(v: Value, cut: bool)
    requires Valid(v) && v.data.Object?
    ensures Shown(FilledValue(v), cut).data == Object(ShownEntries(FilledMembers(v.data.entries), cut))
  {
  }

  lemma ShownArray(v: Value, cut: bool)
    requires Valid(v) && v.data.Array?
    ensures Shown(FilledValue(v), cut).data == Array(ShownEntries(FilledEntries(v.data.entries, 0), cut))
  {
  }

  lemma {:induction false} ArrayText(style: Style, v: Value, o: Options, indent: bytes, isMember: bool)
    requires Valid(v) && v.data.Array? && v.data.entries.Cons?
    ensures TextOf(style, v, o, indent, isMember) ==
            if ArrayTakesLines(style, v.data.entries, o) then
              Opening(style, indent, isMember) + [LEFT_BRACKET] +
              ElementLinesFrom(style, v.data.entries, 0, o, indent + style.Unit()) +
              (NewLine(style, indent) + [RIGHT_BRACKET])
            else
              [LEFT_BRACKET] + style.Padding() + JoinedFrom(style, v.data.entries, 0, o) + style.Padding() +
              [RIGHT_BRACKET]
    ensures Shows(style, v, o) ==> ElementsShow(style, v.data.entries, 0, o)
  {
    hide ElementLines, Joined, TakesLines, Opening, NewLine, CutKeys;
    ShownLeaf(style, v, o, indent, isMember);
    ShownArray(v, style.CutsKeys());
  }

  /** One element after another. */
  lemma {:induction false} ElementLinesStep(style: Style, m: Entries, rest: Entries, index: nat, o: Options,
                                            indent: bytes)
    requires FromIndex(rest, index) && ValidEntries(rest) && rest.Cons?
    requires forall j :: index <= j ==> Get(rest, Index(j)) == Get(m, Index(j))
    ensures
      var next := PastSlot(rest, index);
      var child := Get(m, Index(index));
      && Valid(child) && FromIndex(next, index + 1) && ValidEntries(next)
      && ElementLinesFrom(style, rest, index, o, indent) ==
         NewLine(style, indent) + TextOf(style, child, o, indent, false) + CommaIf(next.Cons?) +
         ElementLinesFrom(style, next, index + 1, o, indent)
      && (ElementsShow(style, rest, index, o) <==> Shows(style, child, o) && ElementsShow(style, next, index + 1, o))
      && JoinedFrom(style, rest, index, o) ==
         LeafText(Shown(FilledValue(child), style.CutsKeys()), o) + JoinText(next.Cons?) +
             JoinedFrom(style, next, index + 1, o)
  {
    hide Find, StyledText, Showing, LeafText, Sorted, KeysOfKind, CutKeys, FilledValue, NewLine;
    SlotStep(m, rest, index);
    var next := PastSlot(rest, index);
    assert ShownEntries(FilledEntries(rest, index), style.CutsKeys()) ==
           Cons(Index(index), Shown(FilledValue(Get(m, Index(index))), style.CutsKeys()),
                ShownEntries(FilledEntries(next, index + 1), style.CutsKeys()));
    assert ShownEntries(FilledEntries(next, index + 1), style.CutsKeys()).Cons? <==> next.Cons?;
  }

  lemma {:induction false} MemberLinesStep(style: Style, rest: Entries, o: Options, indent: bytes)
    requires rest.Cons? && ValidEntries(rest) && rest.key.Name?
    ensures Valid(rest.value) && ValidEntries(rest.rest)
    ensures MemberLinesFrom(style, rest, o, indent) ==
            NewLine(style, indent) + Quoted(ShownName(rest.key.s, style.CutsKeys())) + style.Colon() +
            TextOf(style, rest.value, o, indent, true) + CommaIf(rest.rest.Cons?) +
                MemberLinesFrom(style, rest.rest, o, indent)
    ensures MembersShow(style, rest, o) <==> Shows(style, rest.value, o) && MembersShow(style, rest.rest, o)
  {
    hide StyledText, Showing, CutKeys, FilledValue, Quoted, CutAtNul, NewLine;
    var cut := style.CutsKeys();
    var shown := ShownEntries(FilledMembers(rest), cut);
    assert shown == Cons(Name(ShownName(rest.key.s, cut)), Shown(FilledValue(rest.value), cut),
                         ShownEntries(FilledMembers(rest.rest), cut));
    assert ShownEntries(FilledMembers(rest.rest), cut).Cons? <==> rest.rest.Cons?;
  }

  // --------------------------------------------------------------------------- The end of a text

  predicate IsSolidEnd(text: bytes) {
    text != [] && text[|text| - 1] != SPACE && text[|text| - 1] != LINE_FEED
  }

  lemma {:induction false} EndsLike(before: bytes, text: bytes)
    requires IsSolidEnd(text)
    ensures IsSolidEnd(before + text)
  {
    assert (before + text)[|before + text| - 1] == text[|text| - 1];
  }

  /** One turn of a loop over members or elements: a line, and a comma unless it is the last. */
  lemma {:induction false} LineAdded(text: bytes, line: bytes, more: bool, later: bytes, all: bytes)
    requires text + (line + CommaIf(more) + later) == all && (!more ==> later == [])
    ensures !more ==> text + line == all
    ensures more ==> text + line + [COMMA] + later == all
  {
    if more {
      assert text + line + [COMMA] + later == text + (line + [COMMA] + later);
    } else {
      assert line + [] + [] == line;
    }
  }

  lemma NoLines(style: Style, o: Options, indent: bytes)
    ensures MemberLinesFrom(style, Nil, o, indent) == []
    ensures forall i: nat :: ElementLinesFrom(style, Nil, i, o, indent) == [] && JoinedFrom(style, Nil, i, o) == []
  {
  }

  lemma {:induction false} LeafEndsSolid(v: Value, o: Options)
    requires FormatsBare(o) && IsLeaf(v) && LeafText(v, o) != []
    ensures IsSolidEnd(LeafText(v, o))
  {
    hide DecText, EscapeText;
    match v.data
    case Int(i) => assert forall c :: IsDigit(c) ==> c != SPACE && c != LINE_FEED;
    case UInt(u) => assert forall c :: IsDigit(c) ==> c != SPACE && c != LINE_FEED;
    case Real(x) => assert IsBare(o.formatReal(x));
    case _ =>
  }

  lemma {:induction false} ShownTextEndsSolid(style: Style, v: Value, o: Options, indent: bytes, isMember: bool)
    requires FormatsBare(o) && style.OnString? && Valid(v) && Shows(style, v, o)
    ensures IsSolidEnd(TextOf(style, v, o, indent, isMember))
  {
    hide MemberLines, ElementLines, Joined, TakesLines, Opening, NewLine, LeafText, Showing, ShowingAll;
    var w := Shown(FilledValue(v), style.CutsKeys());
    if IsLeaf(w) {
      ShownLeaf(style, v, o, indent, isMember);
      LeafEndsSolid(w, o);
    }
  }
}
