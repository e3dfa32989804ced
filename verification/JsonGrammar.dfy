/**
 What a JSON text is, byte by byte: the texts of RFC 8259 and exactly those beyond them that the reader
 takes as well. A text is given by the tree it writes down, with the members of its objects in the order
 in which they stand there, repeated names included.
 */
module JsonGrammar {
  import opened Bytes
  import opened JsonNumber
  import opened JsonString
  import opened JsonValue
  import opened JsonLexer
  import opened JsonParser

  // --------------------------------------------------------------------------- White space and comments

  predicate IsBlank(c: byte) {
    c == 32 || c == 9 || c == 10 || c == 13
  }

  predicate Blanks(doc: bytes, p: nat, q: nat) {
    p <= q <= |doc| && forall i :: p <= i < q ==> IsBlank(doc[i])
  }

  /** From a slash and a star to the first star and slash. */
  predicate BlockComment(doc: bytes, p: nat, q: nat) {
    && p + 4 <= q <= |doc| && doc[p] == 47 && doc[p + 1] == 42 && doc[q - 2] == 42 && doc[q - 1] == 47
    && forall i :: p + 2 <= i < q - 2 ==> !(doc[i] == 42 && doc[i + 1] == 47)
  }

  /** From two slashes to the end of the line. */
  predicate LineComment(doc: bytes, p: nat, q: nat) {
    && p + 2 <= q <= |doc| && doc[p] == 47 && doc[p + 1] == 47
    && (forall i :: p + 2 <= i < q ==> doc[i] != 10 && doc[i] != 13)
    && (q < |doc| ==> doc[q] == 10 || doc[q] == 13)
  }

  predicate GapPiece(doc: bytes, p: nat, q: nat) {
    (q == p + 1 && p < |doc| && IsBlank(doc[p])) || BlockComment(doc, p, q) || LineComment(doc, p, q)
  }

  /** White space and comments. */
  ghost predicate Gap(doc: bytes, p: nat, q: nat)
    decreases q - p
  {
    (p == q <= |doc|) || exists m :: p < m <= q && GapPiece(doc, p, m) && Gap(doc, m, q)
  }

  /** What may stand before a value. */
  ghost predicate Lead(s: Source, p: nat, q: nat) {
    if s.features.allowComments then Gap(s.doc, p, q) else Blanks(s.doc, p, q)
  }

  // --------------------------------------------------------------------------- Scalars

  predicate Digits(doc: bytes, p: nat, q: nat) {
    p <= q <= |doc| && forall i :: p <= i < q ==> 48 <= doc[i] <= 57
  }

  /** A dot and digits, or nothing. */
  predicate Fraction(doc: bytes, p: nat, q: nat) {
    p == q <= |doc| || (p < |doc| && doc[p] == 46 && Digits(doc, p + 1, q))
  }

  /** The letter e, perhaps a sign, and digits; or nothing. */
  predicate Exponent(doc: bytes, p: nat, q: nat) {
    || p == q <= |doc|
    || (p < |doc| && (doc[p] == 101 || doc[p] == 69) &&
        (Digits(doc, p + 1, q) ||
         (p + 1 < |doc| && (doc[p + 1] == 43 || doc[p + 1] == 45) && Digits(doc, p + 2, q))))
  }

  /** A digit or minus, digits, a fraction, an exponent; the digits everywhere may be missing. */
  ghost predicate NumberText(doc: bytes, p: nat, q: nat) {
    && p < q <= |doc| && (doc[p] == 45 || 48 <= doc[p] <= 57)
    && exists f: nat, x: nat :: f <= x <= q && Digits(doc, p + 1, f) && Fraction(doc, f, x) && Exponent(doc, x, q)
  }

  /** A number is as long as it can be. */
  ghost predicate LongestNumber(doc: bytes, p: nat, q: nat) {
    NumberText(doc, p, q) && forall r: nat :: NumberText(doc, p, r) ==> r <= q
  }

  predicate NumberCharacter(c: byte) {
    48 <= c <= 57 || c == 46 || c == 101 || c == 69 || c == 43 || c == 45
  }

  /** An optional minus, digits, a dot with digits, and an exponent with digits, the last two optional. */
  ghost predicate PlainNumber(doc: bytes, p: nat, q: nat) {
    exists i: nat, f: nat, x: nat ::
      && p <= i <= p + 1 && i < f <= x <= q <= |doc|
      && (i == p + 1 ==> doc[p] == 45) && Digits(doc, i, f)
      && Fraction(doc, f, x) && x != f + 1 && Exponent(doc, x, q) && (x < q ==> 48 <= doc[q - 1] <= 57)
  }

  /**
   An optional minus and digits that fit 64 bits are the integer, tagged signed up to 2^31 - 1; anything
   else is a double, if the C library finds one.
   */
  function NumberMeaning(scan: bytes -> Option<Double>, text: bytes): Option<Data> {
    var negative := text != [] && text[0] == 45;
    var digits := if negative then text[1..] else text;
    var n: int := if AllDigits(digits) then NatValue(digits) else 0;
    if AllDigits(digits) && negative && n <= 0x8000_0000_0000_0000 then Some(Int(-n))
    else if AllDigits(digits) && !negative && n <= 0x7FFF_FFFF then Some(Int(n))
    else if AllDigits(digits) && !negative && n <= 0xFFFF_FFFF_FFFF_FFFF then Some(UInt(n))
    else
      match scan(text)
      case Some(x) => Some(Real(x))
      case None => None
  }

  /** A string literal, for `t`. */
  ghost predicate Literal(doc: bytes, p: nat, q: nat, t: bytes) {
    p + 2 <= q <= |doc| && doc[p] == 34 && doc[q - 1] == 34 && PiecesAt(doc, p + 1, q - 1, t)
  }

  predicate Word(doc: bytes, p: nat, q: nat, word: bytes) {
    q == p + |word| && At(doc, p, word)
  }

  // --------------------------------------------------------------------------- Values

  /** A gap and then the character `c`. */
  ghost predicate Closes(doc: bytes, c: byte, p: nat, q: nat) {
    p < q <= |doc| && Gap(doc, p, q - 1) && doc[q - 1] == c
  }

  predicate ColonAt(doc: bytes, p: nat, q: nat) {
    p < q <= |doc| && Blanks(doc, p, q - 1) && doc[q - 1] == 58
  }

  /** A member's name and the colon: no comment stands between them. */
  ghost predicate Label(doc: bytes, name: bytes, p: nat, q: nat) {
    exists a, b :: Gap(doc, p, a) && Literal(doc, a, b, name) && ColonAt(doc, b, q)
  }

  /** After a comment any token but a closing brace passes for the comma between two members. */
  predicate Stray(doc: bytes, p: nat, q: nat) {
    p <= |doc| &&
    var t := NextSkippingComments(doc, p);
    t.kind != ObjectEnd && q == t.end && !Blanks(doc, p, t.start)
  }

  ghost predicate Separates(doc: bytes, p: nat, q: nat) {
    Closes(doc, 44, p, q) || Stray(doc, p, q)
  }

  /** A text of the tree stands between `p` and `q`. */
  ghost predicate ValueText(s: Source, w: Value, p: nat, q: nat)
    decreases w, 0
  {
    match w.data
    case Null => Word(s.doc, p, q, [110, 117, 108, 108])
    case Bool(b) => Word(s.doc, p, q, if b then [116, 114, 117, 101] else [102, 97, 108, 115, 101])
    case Str(t) => t.Some? && Literal(s.doc, p, q, t.value)
    case Array(m) =>
      && p < q <= |s.doc| && s.doc[p] == 91
      && if m.Nil? then p + 1 < q && Blanks(s.doc, p + 1, q - 1) && s.doc[q - 1] == 93
         else ElementList(s, m, 0, p + 1, q)
    case Object(m) => p < q <= |s.doc| && s.doc[p] == 123 && MemberList(s, m, [], p + 1, q)
    case d => LongestNumber(s.doc, p, q) && NumberMeaning(s.scan, s.doc[p..q]) == Some(d)
  }

  ghost predicate SpacedText(s: Source, w: Value, p: nat, q: nat)
    decreases w, 1
  {
    exists a :: Lead(s, p, a) && ValueText(s, w, a, q)
  }

  /** The elements from the one with index `i` on, and the closing bracket. */
  ghost predicate ElementList(s: Source, m: Entries, i: nat, p: nat, q: nat)
    decreases m, 0
  {
    match m
    case Nil => false
    case Cons(k, v, rest) =>
      && k == Index(i)
      && exists e ::
          && SpacedText(s, v, p, e)
          && if rest.Nil? then Closes(s.doc, 93, e, q)
             else exists next :: Closes(s.doc, 44, e, next) && ElementList(s, rest, i + 1, next, q)
  }

  /**
   The members and the closing brace. `last` is the name of the member before; while it is empty, the
   brace may stand in place of a name, so that a comma may follow a member with the empty name.
   */
  ghost predicate MemberList(s: Source, m: Entries, last: bytes, p: nat, q: nat)
    decreases m, 0
  {
    match m
    case Nil => last == [] && Closes(s.doc, 125, p, q)
    case Cons(k, v, rest) =>
      && k.Name?
      && exists c, e ::
          && Label(s.doc, k.s, p, c) && SpacedText(s, v, c, e)
          && ((rest.Nil? && Closes(s.doc, 125, e, q)) || MoreMembers(s, rest, k.s, e, q))
  }

  ghost predicate MoreMembers(s: Source, m: Entries, last: bytes, p: nat, q: nat)
    decreases m, 1
  {
    exists next :: Separates(s.doc, p, next) && MemberList(s, m, last, next, q)
  }

  // --------------------------------------------------------------------------- What is read

  /** How many nested calls of `readValue` the tree needs. */
  function Nest(w: Value): (n: nat)
    ensures n >= 1
  {
    match w.data
    case Array(m) => 1 + NestOfEntries(m)
    case Object(m) => 1 + NestOfEntries(m)
    case _ => 1
  }

  function NestOfEntries(m: Entries): nat {
    match m
    case Nil => 0
    case Cons(_, v, rest) => if Nest(v) > NestOfEntries(rest) then Nest(v) else NestOfEntries(rest)
  }

  /**
   What reading a text yields: members are entered one after the other, and a later one takes the place
   of an earlier one with its name.
   */
  function ReadBack(w: Value): Value {
    Plain(match w.data
          case Array(m) => Array(ReadBackElements(m))
          case Object(m) => Object(Entered(Nil, m))
          case d => d)
  }

  function ReadBackElements(m: Entries): Entries {
    match m
    case Nil => Nil
    case Cons(k, v, rest) => Cons(k, ReadBack(v), ReadBackElements(rest))
  }

  function Entered(acc: Entries, m: Entries): Entries
    decreases m
  {
    match m
    case Nil => acc
    case Cons(k, v, rest) => Entered(Set(acc, k, ReadBack(v)), rest)
  }

  predicate IsNumber(d: Data) {
    d.Int? || d.UInt? || d.Real?
  }

  predicate IsContainer(d: Data) {
    d.Array? || d.Object?
  }

  /** The document begins with a text of `w`. What follows it does not matter. */
  ghost predicate DocumentText(s: Source, w: Value) {
    exists q :: SpacedText(s, w, 0, q)
  }
}
