/** The tokens of the reader (json_reader.cpp): what each scan yields from a given position. */
module JsonLexer {
  import opened Bytes
  import opened JsonString

  datatype TokenType =
    | EndOfStream
    | ObjectBegin
    | ObjectEnd
    | ArrayBegin
    | ArrayEnd
    | StringToken
    | NumberToken
    | TrueToken
    | FalseToken
    | NullToken
    | ArraySeparator
    | MemberSeparator
    | CommentToken
    | ErrorToken

  /** `[start, end)` is the token's text. */
  datatype Token = Token(kind: TokenType, start: nat, end: nat)

  function SkipSpaces(doc: bytes, p: nat): (q: nat)
    requires p <= |doc|
    ensures p <= q <= |doc|
    ensures q < |doc| ==> !IsSpace(doc[q])
    decreases |doc| - p
  {
    if p < |doc| && IsSpace(doc[p]) then SkipSpaces(doc, p + 1) else p
  }

  function DigitsEnd(doc: bytes, p: nat): (q: nat)
    requires p <= |doc|
    ensures p <= q <= |doc|
    decreases |doc| - p
  {
    if p < |doc| && IsDigit(doc[p]) then DigitsEnd(doc, p + 1) else p
  }

  function FractionEnd(doc: bytes, p: nat): (q: nat)
    requires p <= |doc|
    ensures p <= q <= |doc|
  {
    if CharAt(doc, p) == DOT then DigitsEnd(doc, p + 1) else p
  }

  function ExponentEnd(doc: bytes, p: nat): (q: nat)
    requires p <= |doc|
    ensures p <= q <= |doc|
  {
    if CharAt(doc, p) == 101 || CharAt(doc, p) == 69 then
      if CharAt(doc, p + 1) == PLUS || CharAt(doc, p + 1) == MINUS then DigitsEnd(doc, p + 2)
      else DigitsEnd(doc, p + 1)
    else p
  }

  /** Where a number ends: digits, a fraction, an exponent, all optional after the first character. */
  function NumberEnd(doc: bytes, p: nat): (q: nat)
    requires p <= |doc|
    ensures p <= q <= |doc|
  {
    ExponentEnd(doc, FractionEnd(doc, DigitsEnd(doc, p)))
  }

  /** After the two opening characters: whether the closing pair is found, and where scanning ends. */
  function CStyleCommentEnd(doc: bytes, p: nat): (r: (bool, nat))
    requires p <= |doc|
    ensures p <= r.1 <= |doc|
    decreases |doc| - p
  {
    if p == |doc| then (false, p)
    else if doc[p] == STAR && CharAt(doc, p + 1) == SLASH then (true, p + 2)
    else CStyleCommentEnd(doc, p + 1)
  }

  /** After the two slashes: past the end of the line, which may be one character or two. */
  function CppStyleCommentEnd(doc: bytes, p: nat): (q: nat)
    requires p <= |doc|
    ensures p <= q <= |doc|
    decreases |doc| - p
  {
    if p == |doc| then p
    else if doc[p] == LINE_FEED then p + 1
    else if doc[p] == RETURN then if CharAt(doc, p + 1) == LINE_FEED then p + 2 else p + 1
    else CppStyleCommentEnd(doc, p + 1)
  }

  function CommentEnd(doc: bytes, p: nat): (r: (bool, nat))
    requires p <= |doc|
    ensures p <= r.1 <= |doc|
  {
    if p == |doc| then (false, p)
    else if doc[p] == STAR then CStyleCommentEnd(doc, p + 1)
    else if doc[p] == SLASH then (true, CppStyleCommentEnd(doc, p + 1))
    else (false, p + 1)
  }

  function Checked(ok: bool, kind: TokenType): TokenType {
    if ok then kind else ErrorToken
  }

  /** The rest of a literal name; on a mismatch the cursor stays. */
  function WordToken(doc: bytes, s: nat, rest: bytes, kind: TokenType): (t: Token)
    requires s < |doc|
    ensures t.start == s < t.end <= |doc|
  {
    if At(doc, s + 1, rest) then Token(kind, s, s + 1 + |rest|) else Token(ErrorToken, s, s + 1)
  }

  function PunctuationOf(c: byte): Option<TokenType> {
    if c == LEFT_BRACE then Some(ObjectBegin)
    else if c == RIGHT_BRACE then Some(ObjectEnd)
    else if c == LEFT_BRACKET then Some(ArrayBegin)
    else if c == RIGHT_BRACKET then Some(ArrayEnd)
    else if c == COMMA then Some(ArraySeparator)
    else if c == COLON then Some(MemberSeparator)
    else if c == NUL then Some(EndOfStream)
    else None
  }

  /** The token whose first character is at `s`. */
  function TokenAt(doc: bytes, s: nat): (t: Token)
    requires s <= |doc|
    ensures t.start == s <= t.end <= |doc|
    ensures t.kind != EndOfStream ==> s < t.end
    ensures t.kind == StringToken ==> s + 2 <= t.end
  {
    if s == |doc| then Token(EndOfStream, s, s)
    else
      var c := doc[s];
      if PunctuationOf(c).Some? then Token(PunctuationOf(c).value, s, s + 1)
      else if c == QUOTE then
        var (ok, end) := StringEnd(doc, s + 1);
        Token(Checked(ok, StringToken), s, end)
      else if c == SLASH then
        var (ok, end) := CommentEnd(doc, s + 1);
        Token(Checked(ok, CommentToken), s, end)
      else if IsDigit(c) || c == MINUS then Token(NumberToken, s, NumberEnd(doc, s + 1))
      else if c == TRUE_TEXT[0] then WordToken(doc, s, TRUE_TEXT[1..], TrueToken)
      else if c == FALSE_TEXT[0] then WordToken(doc, s, FALSE_TEXT[1..], FalseToken)
      else if c == NULL_TEXT[0] then WordToken(doc, s, NULL_TEXT[1..], NullToken)
      else Token(ErrorToken, s, s + 1)
  }

  /** The next token, after white space. */
  function NextToken(doc: bytes, p: nat): (t: Token)
    requires p <= |doc|
    ensures p <= t.start <= t.end <= |doc|
    ensures t.kind != EndOfStream ==> p < t.end && t.start < t.end
    ensures t.kind == StringToken ==> t.start + 2 <= t.end
  {
    TokenAt(doc, SkipSpaces(doc, p))
  }

  /** The next token that is not a comment. */
  function NextSkippingComments(doc: bytes, p: nat): (t: Token)
    requires p <= |doc|
    ensures p <= t.start <= t.end <= |doc|
    ensures t.kind != EndOfStream ==> p < t.end && t.start < t.end
    ensures t.kind == StringToken ==> t.start + 2 <= t.end
    ensures t.kind != CommentToken
    decreases |doc| - p
  {
    var t := NextToken(doc, p);
    if t.kind == CommentToken then NextSkippingComments(doc, t.end) else t
  }

  /** Where recovery from an error stops: after the first token of the wanted kind, or at the end. */
  function RecoverTo(doc: bytes, p: nat, until: TokenType): (q: nat)
    requires p <= |doc|
    ensures p <= q <= |doc|
    decreases |doc| - p
  {
    var t := NextToken(doc, p);
    if t.kind == until || t.kind == EndOfStream then t.end else RecoverTo(doc, t.end, until)
  }
}
