/**
 The grammar the reader accepts (json_reader.cpp), as functions from a position to the outcome: the
 position reached, the errors recorded, the value as far as it was filled in, and the depth counter.
 */
module JsonParser {
  import opened Bytes
  import opened JsonNumber
  import opened JsonString
  import opened JsonValue
  import opened JsonLexer

  datatype Features = Features(allowComments: bool, strictRoot: bool)

  /**
   A document with the settings it is read under. `scan` stands for the C library's conversion of
   the text of a double, which may fail.
   */
  datatype Source = Source(doc: bytes, features: Features, scan: bytes -> Option<Double>)

  datatype Message =
    | ValueExpected
    | MemberNameExpected
    | ColonExpected
    | MemberSeparatorExpected
    | ElementSeparatorExpected
    | NotANumber
    | BadString(message: StringMessage)
    | RootNotContainer

  datatype Error = Error(message: Message, token: Token, extra: Option<nat>)

  /** An exception for too deep nesting, or a regular return. */
  datatype Outcome =
    | Thrown
    | Returned(ok: bool, pos: nat, errors: seq<Error>, value: Value, depth: int)

  const STACK_LIMIT: nat := 1000

  /** The token `readValue` looks at. */
  function FirstToken(s: Source, p: nat): (t: Token)
    requires p <= |s.doc|
    ensures p <= t.start <= t.end <= |s.doc|
    ensures t.kind != EndOfStream ==> p < t.end && t.start < t.end
    ensures t.kind == StringToken ==> t.start + 2 <= t.end
  {
    if s.features.allowComments then NextSkippingComments(s.doc, p) else NextToken(s.doc, p)
  }

  function Fail(pos: nat, e: Error, value: Value, depth: int): Outcome {
    Returned(false, pos, [e], value, depth)
  }

  function DecodedData(d: Decoded): Data
    requires !d.UseDouble?
  {
    match d
    case SignedInteger(i) => Int(i)
    case UnsignedInteger(u) => UInt(u)
  }

  /** What a number token turns into, if it is a number. */
  function NumberData(s: Source, t: Token): Option<Data>
    requires t.start <= t.end <= |s.doc|
  {
    var text := s.doc[t.start..t.end];
    var d := DecodeSpec(text);
    if !d.UseDouble? then Some(DecodedData(d))
    else match s.scan(text) case Some(x) => Some(Real(x)) case None => None
  }

  function Filled(t: Token, data: Data, depth: int): Outcome {
    Returned(true, t.end, [], Value(data, t.start, t.end), depth)
  }

  function ParseScalar(s: Source, t: Token, depth: int, cur: Value): (r: Outcome)
    requires t.start <= t.end <= |s.doc|
    requires t.kind == StringToken ==> t.start + 2 <= t.end
    ensures r.Returned? && r.pos == t.end && (r.ok <==> r.errors == [])
    ensures r.ok ==> r.depth == depth && r.value.start == t.start && r.value.limit == t.end
  {
    match t.kind
    case NumberToken =>
      (match NumberData(s, t)
       case Some(data) => Filled(t, data, depth)
       case None => Fail(t.end, Error(NotANumber, t, None), cur, depth))
    case StringToken =>
      (match DecodeText(s.doc, t.start + 1, t.end - 1)
       case Text(text) => Filled(t, Str(Some(text)), depth)
       case BadText(m, at) => Fail(t.end, Error(BadString(m), t, Some(at)), cur, depth))
    case TrueToken => Filled(t, Bool(true), depth)
    case FalseToken => Filled(t, Bool(false), depth)
    case NullToken => Filled(t, Null, depth)
    case _ => Fail(t.end, Error(ValueExpected, t, None), cur.(start := t.start, limit := t.end), depth + 1)
  }

  /** The end of `readValue` for a container: the limit is set and the depth counter lowered. */
  function Close(r: Outcome): Outcome {
    if r.Thrown? then r else r.(value := r.value.(limit := r.pos), depth := r.depth - 1)
  }

  function ParseValue(s: Source, p: nat, depth: int, cur: Value): (r: Outcome)
    requires p <= |s.doc|
    ensures r.Returned? ==> p <= r.pos <= |s.doc|
    ensures r.Returned? ==> (r.ok <==> r.errors == [])
    ensures r.Returned? && r.ok ==> p < r.pos && r.depth == depth && r.value.limit == r.pos
    decreases |s.doc| - p, 0
  {
    if depth >= STACK_LIMIT then Thrown
    else
      var t := FirstToken(s, p);
      if t.kind == ObjectBegin then
        Close(ParseMembers(s, t.end, depth + 1, Value(Object(Nil), t.start, cur.limit), []))
      else if t.kind == ArrayBegin then
        Close(ParseArray(s, t.end, depth + 1, Value(Array(Nil), t.start, cur.limit)))
      else ParseScalar(s, t, depth, cur)
  }

  /** The entries of a container value. */
  function EntriesOf(v: Value): Entries {
    match v.data
    case Array(m) => m
    case Object(m) => m
    case _ => Nil
  }

  function WithEntries(v: Value, m: Entries): Value {
    match v.data
    case Array(_) => v.(data := Array(m))
    case Object(_) => v.(data := Object(m))
    case _ => v
  }

  function SetChild(v: Value, key: Key, child: Value): Value {
    WithEntries(v, Set(EntriesOf(v), key, child))
  }

  /** What stands where a member may begin: the closing brace of an empty object, a name with its colon, or an error. */
  datatype NameStep = NoMember(pos: nat) | Named(key: bytes, pos: nat) | BadName(pos: nat, e: Error)

  /** `name` is the last member name read: a closing brace is taken here only while it is empty. */
  function MemberName(s: Source, p: nat, name: bytes): (r: NameStep)
    requires p <= |s.doc|
    ensures p <= r.pos <= |s.doc|
    ensures !r.BadName? ==> p < r.pos
  {
    var t := NextSkippingComments(s.doc, p);
    if t.kind == ObjectEnd && name == [] then NoMember(t.end)
    else if t.kind != StringToken then
      BadName(RecoverTo(s.doc, t.end, ObjectEnd), Error(MemberNameExpected, t, None))
    else
      match DecodeText(s.doc, t.start + 1, t.end - 1)
      case BadText(m, at) => BadName(RecoverTo(s.doc, t.end, ObjectEnd), Error(BadString(m), t, Some(at)))
      case Text(key) =>
        var colon := NextToken(s.doc, t.end);
        if colon.kind == MemberSeparator then Named(key, colon.end)
        else BadName(RecoverTo(s.doc, colon.end, ObjectEnd), Error(ColonExpected, colon, None))
  }

  /** What follows a member or an element: the end of the container, more of it, or an error. */
  datatype FollowStep = Last(pos: nat) | More(pos: nat) | BadFollow(pos: nat, e: Error)

  /** After a comment the next token is taken whatever it is; only a closing brace ends the object. */
  function MemberFollow(s: Source, p: nat): (r: FollowStep)
    requires p <= |s.doc|
    ensures p <= r.pos <= |s.doc|
  {
    var comma := NextToken(s.doc, p);
    if comma.kind !in {ObjectEnd, ArraySeparator, CommentToken} then
      BadFollow(RecoverTo(s.doc, comma.end, ObjectEnd), Error(MemberSeparatorExpected, comma, None))
    else
      var last := NextSkippingComments(s.doc, p);
      if last.kind == ObjectEnd then Last(last.end) else More(last.end)
  }

  function ElementFollow(s: Source, p: nat): (r: FollowStep)
    requires p <= |s.doc|
    ensures p <= r.pos <= |s.doc|
  {
    var t := NextSkippingComments(s.doc, p);
    if t.kind == ArrayEnd then Last(t.end)
    else if t.kind == ArraySeparator then More(t.end)
    else BadFollow(RecoverTo(s.doc, t.end, ArrayEnd), Error(ElementSeparatorExpected, t, None))
  }

  /** The loop of `readObject`. */
  function ParseMembers(s: Source, p: nat, depth: int, obj: Value, name: bytes): (r: Outcome)
    requires p <= |s.doc|
    ensures r.Returned? ==> p <= r.pos <= |s.doc|
    ensures r.Returned? ==> (r.ok <==> r.errors == [])
    ensures r.Returned? && r.ok ==> r.depth == depth
    decreases |s.doc| - p, 1
  {
    match MemberName(s, p, name)
    case NoMember(pos) => Returned(true, pos, [], obj, depth)
    case BadName(pos, e) => Fail(pos, e, obj, depth)
    case Named(key, pos) =>
      AfterMember(s, ParseValue(s, pos, depth, Get(EntriesOf(obj), Name(key))), obj, key)
  }

  /** The rest of the loop once the value of a member is read. */
  function AfterMember(s: Source, child: Outcome, obj: Value, key: bytes): (r: Outcome)
    requires child.Returned? ==> child.pos <= |s.doc| && (child.ok <==> child.errors == [])
    ensures r.Returned? ==> child.Returned? && child.pos <= r.pos <= |s.doc|
    ensures r.Returned? ==> (r.ok <==> r.errors == [])
    ensures r.Returned? && r.ok ==> r.depth == child.depth
    decreases if child.Returned? && child.ok then |s.doc| - child.pos else 0,
              if child.Returned? && child.ok then 2 else 0
  {
    if child.Thrown? then Thrown
    else
      var obj' := SetChild(obj, Name(key), child.value);
      if !child.ok then Returned(false, RecoverTo(s.doc, child.pos, ObjectEnd), child.errors, obj', child.depth)
      else
        match MemberFollow(s, child.pos)
        case Last(end) => Returned(true, end, [], obj', child.depth)
        case More(next) => ParseMembers(s, next, child.depth, obj', key)
        case BadFollow(end, e) => Fail(end, e, obj', child.depth)
  }

  function ParseArray(s: Source, p: nat, depth: int, arr: Value): (r: Outcome)
    requires p <= |s.doc|
    ensures r.Returned? ==> p <= r.pos <= |s.doc|
    ensures r.Returned? ==> (r.ok <==> r.errors == [])
    ensures r.Returned? && r.ok ==> r.depth == depth
    decreases |s.doc| - p, 2
  {
    var q := SkipSpaces(s.doc, p);
    if CharAt(s.doc, q) == RIGHT_BRACKET then Returned(true, q + 1, [], arr, depth)
    else ParseElements(s, q, depth, arr, 0)
  }

  /** The loop of `readArray`. */
  function ParseElements(s: Source, p: nat, depth: int, arr: Value, index: nat): (r: Outcome)
    requires p <= |s.doc|
    ensures r.Returned? ==> p <= r.pos <= |s.doc|
    ensures r.Returned? ==> (r.ok <==> r.errors == [])
    ensures r.Returned? && r.ok ==> r.depth == depth
    decreases |s.doc| - p, 1
  {
    AfterElement(s, ParseValue(s, p, depth, Get(EntriesOf(arr), Index(index))), arr, index)
  }

  /** The rest of the loop once an element is read. */
  function AfterElement(s: Source, child: Outcome, arr: Value, index: nat): (r: Outcome)
    requires child.Returned? ==> child.pos <= |s.doc| && (child.ok <==> child.errors == [])
    ensures r.Returned? ==> child.Returned? && child.pos <= r.pos <= |s.doc|
    ensures r.Returned? ==> (r.ok <==> r.errors == [])
    ensures r.Returned? && r.ok ==> r.depth == child.depth
    decreases if child.Returned? && child.ok then |s.doc| - child.pos else 0,
              if child.Returned? && child.ok then 2 else 0
  {
    if child.Thrown? then Thrown
    else
      var arr' := SetChild(arr, Index(index), child.value);
      if !child.ok then Returned(false, RecoverTo(s.doc, child.pos, ArrayEnd), child.errors, arr', child.depth)
      else
        match ElementFollow(s, child.pos)
        case Last(end) => Returned(true, end, [], arr', child.depth)
        case More(next) => ParseElements(s, next, child.depth, arr', index + 1)
        case BadFollow(end, e) => Fail(end, e, arr', child.depth)
  }

  /** What `parse` makes of a whole document: the value, and the strict root check after it. */
  function ParseDocument(s: Source, root: Value): Outcome {
    var r := ParseValue(s, 0, 0, root);
    if r.Thrown? then r
    else
      var rest := FirstToken(s, r.pos);
      if s.features.strictRoot && !r.value.data.Array? && !r.value.data.Object? then
        Returned(false, rest.end, r.errors + [Error(RootNotContainer, Token(ErrorToken, 0, |s.doc|), None)], r.value,
                 r.depth)
      else r.(pos := rest.end)
  }
}
