/**
 String literals: quoting as the writers do it (json_writer.cpp), decoding as the reader does it
 (json_reader.cpp), and the UTF-8 encoder of json_tool.h against section 3 of RFC 3629.
 */
module JsonString {
  import opened Bytes

  // --------------------------------------------------------------------------- Quoting

  const LETTER_U: byte := 117

  /** The letter after the backslash in a two-character escape, for the bytes that have one. */
  function ShortEscape(c: byte): Option<byte> {
    if c == QUOTE || c == BACKSLASH then Some(c)
    else if c == BACKSPACE then Some(98)
    else if c == FORM_FEED then Some(102)
    else if c == LINE_FEED then Some(110)
    else if c == RETURN then Some(114)
    else if c == TAB then Some(116)
    else None
  }

  function HexDigit(d: nat): byte
    requires d < 16
  {
    if d < 10 then ZERO + d else 55 + d
  }

  /** Four hexadecimal digits, zero-filled. */
  function Hex4(n: nat): (h: bytes)
    requires n < 0x1_0000
    ensures |h| == 4
  {
    [HexDigit(n / 4096), HexDigit(n / 256 % 16), HexDigit(n / 16 % 16), HexDigit(n % 16)]
  }

  function EscapeByte(c: byte): (e: bytes)
    ensures |e| >= 1
  {
    if ShortEscape(c).Some? then [BACKSLASH, ShortEscape(c).value]
    else if c <= 0x1F then [BACKSLASH, LETTER_U] + Hex4(c)
    else [c]
  }

  function EscapeText(s: bytes): bytes {
    if s == [] then [] else EscapeByte(s[0]) + EscapeText(s[1..])
  }

  function Quoted(s: bytes): bytes {
    [QUOTE] + EscapeText(s) + [QUOTE]
  }

  /** The part of a string a C string function sees. */
  function CutAtNul(s: bytes): bytes {
    if s == [] || s[0] == NUL then [] else [s[0]] + CutAtNul(s[1..])
  }

  predicate NeedsEscape(c: byte) {
    ShortEscape(c).Some? || c <= 0x1F
  }

  lemma {:induction false} EscapeTextAppend(s: bytes, c: byte)
    ensures EscapeText(s + [c]) == EscapeText(s) + EscapeByte(c)
  {
    if s == [] {
      assert EscapeText([c]) == EscapeByte(c) + EscapeText([]);
    } else {
      assert (s + [c])[0] == s[0] && (s + [c])[1..] == s[1..] + [c];
      EscapeTextAppend(s[1..], c);
    }
  }

  lemma {:induction false} NothingToEscape(s: bytes)
    requires forall i :: 0 <= i < |s| ==> !NeedsEscape(s[i])
    ensures EscapeText(s) == s
    ensures CutAtNul(s) == s
  {
    if s != [] {
      NothingToEscape(s[1..]);
    }
  }

  /** Whether some byte is one of the seven with a short escape, or a control character or zero. */
  method ContainsEscapable(value: bytes) returns (found: bool)
    ensures found <==> exists i :: 0 <= i < |value| && NeedsEscape(value[i])
  {
    var cur := 0;
    while cur < |value|
      invariant 0 <= cur <= |value|
      invariant forall i :: 0 <= i < cur ==> !ShortEscape(value[i]).Some?
    {
      if ShortEscape(value[cur]).Some? {
        assert NeedsEscape(value[cur]);
        return true;
      }
      cur := cur + 1;
    }
    cur := 0;
    while cur < |value|
      invariant 0 <= cur <= |value|
      invariant forall i :: 0 <= i < cur ==> !NeedsEscape(value[i])
    {
      if value[cur] <= 0x1F {
        assert NeedsEscape(value[cur]);
        return true;
      }
      cur := cur + 1;
    }
    return false;
  }

  /** Quotes a counted string. The copy on the fast path is a C string copy, cut at a zero byte. */
  method ValueToQuotedStringN(value: bytes) returns (result: bytes)
    ensures result == Quoted(value)
  {
    var escapable := ContainsEscapable(value);
    if !escapable {
      NothingToEscape(value);
      return [QUOTE] + CutAtNul(value) + [QUOTE];
    }
    hide EscapeText, Hex4;
    result := [QUOTE];
    var c := 0;
    assert value[..0] == [] && EscapeText([]) == [] by {
      NothingToEscape([]);
    }
    while c < |value|
      invariant 0 <= c <= |value|
      invariant result == [QUOTE] + EscapeText(value[..c])
    {
      assert value[..c + 1] == value[..c] + [value[c]];
      EscapeTextAppend(value[..c], value[c]);
      assert [QUOTE] + (EscapeText(value[..c]) + EscapeByte(value[c])) ==
             [QUOTE] + EscapeText(value[..c]) + EscapeByte(value[c]);
      if ShortEscape(value[c]).Some? {
        result := result + [BACKSLASH, ShortEscape(value[c]).value];
      } else if value[c] <= 0x1F {
        result := result + ([BACKSLASH, LETTER_U] + Hex4(value[c]));
      } else {
        result := result + [value[c]];
      }
      c := c + 1;
    }
    assert value[..|value|] == value;
    result := result + [QUOTE];
  }

  /** Quotes a C string: everything from the first zero byte on is dropped. */
  method ValueToQuotedString(value: bytes) returns (result: bytes)
    ensures result == Quoted(CutAtNul(value))
  {
    var length := 0;
    assert value[0..] == value;
    while CharAt(value, length) != NUL
      invariant 0 <= length <= |value|
      invariant CutAtNul(value) == value[..length] + CutAtNul(value[length..])
      decreases |value| - length
    {
      assert value[length..][1..] == value[length + 1..];
      assert value[..length + 1] == value[..length] + [value[length]];
      length := length + 1;
    }
    assert CutAtNul(value) == value[..length];
    result := ValueToQuotedStringN(value[..length]);
  }

  // --------------------------------------------------------------------------- UTF-8

  /** UTF-8 of a code point; nothing above the last one. Masks and shifts are written as % and /. */
  function CodePointToUtf8(cp: nat): bytes {
    if cp <= 0x7F then [cp]
    else if cp <= 0x7FF then [0xC0 + cp / 64 % 32, 0x80 + cp % 64]
    else if cp <= 0xFFFF then [0xE0 + cp / 4096 % 16, 0x80 + cp / 64 % 64, 0x80 + cp % 64]
    else if cp <= 0x10FFFF then
      [0xF0 + cp / 262144 % 8, 0x80 + cp / 4096 % 64, 0x80 + cp / 64 % 64, 0x80 + cp % 64]
    else []
  }

  predicate IsSurrogate(cp: nat) {
    0xD800 <= cp <= 0xDFFF
  }

  predicate IsScalar(cp: nat) {
    cp <= 0x10FFFF && !IsSurrogate(cp)
  }

  predicate IsTail(b: byte) {
    0x80 <= b <= 0xBF
  }

  function TailBits(b: byte): int {
    b as int - 0x80
  }

  /** Reads one character by the syntax of section 4 of RFC 3629: the code point and its length. */
  function DecodeUtf8(s: bytes): Option<(int, nat)> {
    if |s| >= 1 && s[0] <= 0x7F then Some((s[0], 1))
    else if |s| >= 2 && 0xC2 <= s[0] <= 0xDF && IsTail(s[1]) then
      var lead: int := s[0];
      Some(((lead - 0xC0) * 64 + TailBits(s[1]), 2))
    else if |s| >= 3 && 0xE0 <= s[0] <= 0xEF && IsTail(s[1]) && IsTail(s[2]) &&
            (s[0] == 0xE0 ==> s[1] >= 0xA0) && (s[0] == 0xED ==> s[1] <= 0x9F) then
      var lead: int := s[0];
      Some(((lead - 0xE0) * 4096 + TailBits(s[1]) * 64 + TailBits(s[2]), 3))
    else if |s| >= 4 && 0xF0 <= s[0] <= 0xF4 && IsTail(s[1]) && IsTail(s[2]) && IsTail(s[3]) &&
            (s[0] == 0xF0 ==> s[1] >= 0x90) && (s[0] == 0xF4 ==> s[1] <= 0x8F) then
      var lead: int := s[0];
      Some(((lead - 0xF0) * 262144 + TailBits(s[1]) * 4096 + TailBits(s[2]) * 64 + TailBits(s[3]), 4))
    else None
  }

  lemma {:induction false} Utf8Two(a: nat, b: nat, rest: bytes)
    requires 2 <= a < 32 && b < 64
    ensures DecodeUtf8([0xC0 + a, 0x80 + b] + rest) == Some((a * 64 + b, 2))
  {
    var s := [0xC0 + a, 0x80 + b] + rest;
    assert s[0] == 0xC0 + a && s[1] == 0x80 + b;
  }

  lemma {:induction false} Utf8Three(a: nat, b: nat, c: nat, rest: bytes)
    requires a < 16 && b < 64 && c < 64 && a * 64 + b >= 32
    ensures DecodeUtf8([0xE0 + a, 0x80 + b, 0x80 + c] + rest) ==
            if a == 13 && b >= 32 then None else Some((a * 4096 + b * 64 + c, 3))
  {
    var s := [0xE0 + a, 0x80 + b, 0x80 + c] + rest;
    assert s[0] == 0xE0 + a && s[1] == 0x80 + b && s[2] == 0x80 + c;
  }

  lemma {:induction false} Utf8Four(a: nat, b: nat, c: nat, d: nat, rest: bytes)
    requires a < 5 && b < 64 && c < 64 && d < 64
    requires (a == 0 ==> b >= 16) && (a == 4 ==> b < 16)
    ensures DecodeUtf8([0xF0 + a, 0x80 + b, 0x80 + c, 0x80 + d] + rest) ==
            Some((a * 262144 + b * 4096 + c * 64 + d, 4))
  {
    var s := [0xF0 + a, 0x80 + b, 0x80 + c, 0x80 + d] + rest;
    assert s[0] == 0xF0 + a && s[1] == 0x80 + b && s[2] == 0x80 + c && s[3] == 0x80 + d;
  }

  /**
   The encoder produces well-formed UTF-8 that reads back as the code point for Unicode scalar values,
   and malformed bytes for surrogates, which the reader accepts when unpaired.
   */
  lemma {:induction false} Utf8Correct(cp: nat, rest: bytes)
    requires cp <= 0x10FFFF
    ensures DecodeUtf8(CodePointToUtf8(cp) + rest) == if IsScalar(cp) then Some((cp, |CodePointToUtf8(cp)|)) else None
  {
    if cp <= 0x7F {
      assert (CodePointToUtf8(cp) + rest)[0] == cp;
    } else if cp <= 0x7FF {
      Utf8Two(cp / 64, cp % 64, rest);
    } else if cp <= 0xFFFF {
      var a, b, c := ThreeGroups(cp);
      Utf8Three(a, b, c, rest);
    } else {
      var a, b, c, d := FourGroups(cp);
      Utf8Four(a, b, c, d, rest);
    }
  }

  /** A surrogate is written by the same pattern of three bytes, which spell its number. */
  lemma {:induction false} SurrogateBytes(cp: nat)
    requires IsSurrogate(cp)
    ensures
      var u := CodePointToUtf8(cp);
      && |u| == 3 && u[0] == 0xED && IsTail(u[1]) && IsTail(u[2])
      && 0xD000 + TailBits(u[1]) * 64 + TailBits(u[2]) == cp
  {
    var a, b, c := ThreeGroups(cp);
  }

  lemma {:induction false} ThreeGroups(cp: nat) returns (a: nat, b: nat, c: nat)
    requires 0x7FF < cp <= 0xFFFF
    ensures a < 16 && b < 64 && c < 64 && a * 64 + b >= 32
    ensures cp == a * 4096 + b * 64 + c
    ensures CodePointToUtf8(cp) == [0xE0 + a, 0x80 + b, 0x80 + c]
  {
    var high := cp / 64;
    a, b, c := high / 64, high % 64, cp % 64;
    assert a == cp / 4096 && cp == high * 64 + c && high == a * 64 + b;
  }

  lemma {:induction false} FourGroups(cp: nat) returns (a: nat, b: nat, c: nat, d: nat)
    requires 0xFFFF < cp <= 0x10FFFF
    ensures a < 5 && b < 64 && c < 64 && d < 64
    ensures (a == 0 ==> b >= 16) && (a == 4 ==> b < 16)
    ensures cp == a * 262144 + b * 4096 + c * 64 + d
    ensures CodePointToUtf8(cp) == [0xF0 + a, 0x80 + b, 0x80 + c, 0x80 + d]
  {
    var high := cp / 64;
    var higher := high / 64;
    a, b, c, d := higher / 64, higher % 64, high % 64, cp % 64;
    assert higher == cp / 4096 && a == cp / 262144;
    assert cp == high * 64 + d && high == higher * 64 + c && higher == a * 64 + b;
  }

  // --------------------------------------------------------------------------- Scanning and decoding

  /**
   Where a string token ends, starting after its opening quote, and whether it ended at a quote:
   a backslash hides the character after it.
   */
  function StringEnd(doc: bytes, p: nat): (r: (bool, nat))
    requires p <= |doc|
    ensures p <= r.1 <= |doc|
    ensures r.0 ==> p < r.1 && doc[r.1 - 1] == QUOTE
    decreases |doc| - p
  {
    if p == |doc| then (false, p)
    else if doc[p] == BACKSLASH then StringEnd(doc, if p + 2 <= |doc| then p + 2 else |doc|)
    else if doc[p] == QUOTE then (true, p + 1)
    else StringEnd(doc, p + 1)
  }

  datatype StringMessage =
    | EmptyEscape
    | BadEscape
    | FourDigitsExpected
    | HexDigitExpected
    | SurrogateTooShort
    | SecondEscapeExpected

  /** A decoded string, or the error and the place it refers to. */
  datatype Text = Text(s: bytes) | BadText(message: StringMessage, at: nat)

  datatype CodePoint = CodePoint(cp: nat, next: nat) | BadCodePoint(message: StringMessage, at: nat)

  function Prepend(s: bytes, t: Text): Text {
    match t
    case Text(u) => Text(s + u)
    case BadText(_, _) => t
  }

  function HexValue(c: byte): (d: Option<nat>)
    ensures d.Some? ==> d.value < 16
  {
    if IsDigit(c) then Some(c - ZERO)
    else if 97 <= c <= 102 then Some(c - 87)
    else if 65 <= c <= 70 then Some(c - 55)
    else None
  }

  /** Folds `k` hexadecimal digits into `acc`. */
  function HexDigits(doc: bytes, cur: nat, k: nat, acc: nat): (r: CodePoint)
    requires cur + k <= |doc|
    ensures r.CodePoint? ==> r.next == cur + k
    decreases k
  {
    if k == 0 then CodePoint(acc, cur)
    else
      match HexValue(doc[cur])
      case Some(d) => HexDigits(doc, cur + 1, k - 1, acc * 16 + d)
      case None => BadCodePoint(HexDigitExpected, cur + 1)
  }

  function UnicodeEscapeSequence(doc: bytes, cur: nat, end: nat): (r: CodePoint)
    requires cur <= end <= |doc|
    ensures r.CodePoint? ==> r.next == cur + 4 <= end
  {
    if end - cur < 4 then BadCodePoint(FourDigitsExpected, cur) else HexDigits(doc, cur, 4, 0)
  }

  /** One escape, or two when the first is a high surrogate; the second is not checked to be a low one. */
  function UnicodeCodePoint(doc: bytes, cur: nat, end: nat): (r: CodePoint)
    requires cur <= end <= |doc|
    ensures r.CodePoint? ==> cur < r.next <= end
  {
    var first := UnicodeEscapeSequence(doc, cur, end);
    if first.BadCodePoint? || !(0xD800 <= first.cp <= 0xDBFF) then first
    else
      var next := first.next;
      if end - next < 6 then BadCodePoint(SurrogateTooShort, next)
      else if doc[next] != BACKSLASH then BadCodePoint(SecondEscapeExpected, next + 1)
      else if doc[next + 1] != LETTER_U then BadCodePoint(SecondEscapeExpected, next + 2)
      else
        match UnicodeEscapeSequence(doc, next + 2, end)
        case BadCodePoint(m, at) => BadCodePoint(m, at)
        case CodePoint(second, after) =>
          CodePoint(0x10000 + first.cp % 0x400 * 0x400 + second % 0x400, after)
  }

  /** The byte a one-letter escape stands for. */
  function SimpleEscape(e: byte): Option<byte> {
    if e == QUOTE || e == SLASH || e == BACKSLASH then Some(e)
    else if e == 98 then Some(BACKSPACE)
    else if e == 102 then Some(FORM_FEED)
    else if e == 110 then Some(LINE_FEED)
    else if e == 114 then Some(RETURN)
    else if e == 116 then Some(TAB)
    else None
  }

  /** What the decoder makes of the characters at `cur`: the decoded piece and where it goes on. */
  datatype Piece = Piece(s: bytes, next: nat) | Finished | Broken(message: StringMessage, at: nat)

  function NextPiece(doc: bytes, cur: nat, end: nat): (r: Piece)
    requires cur <= end <= |doc|
    ensures r.Piece? ==> cur < r.next <= end
  {
    if cur == end || doc[cur] == QUOTE then Finished
    else if doc[cur] != BACKSLASH then Piece([doc[cur]], cur + 1)
    else if cur + 1 == end then Broken(EmptyEscape, end)
    else if SimpleEscape(doc[cur + 1]).Some? then Piece([SimpleEscape(doc[cur + 1]).value], cur + 2)
    else if doc[cur + 1] == LETTER_U then
      match UnicodeCodePoint(doc, cur + 2, end)
      case CodePoint(cp, next) => Piece(CodePointToUtf8(cp), next)
      case BadCodePoint(m, at) => Broken(m, at)
    else Broken(BadEscape, cur + 2)
  }

  /** The contents of the literal between `cur` and its closing quote at `end`. */
  function DecodeText(doc: bytes, cur: nat, end: nat): Text
    requires cur <= end <= |doc|
    decreases end - cur
  {
    match NextPiece(doc, cur, end)
    case Finished => Text([])
    case Piece(s, next) => Prepend(s, DecodeText(doc, next, end))
    case Broken(m, at) => BadText(m, at)
  }

  // The decoder's own loops.

  lemma HexStep(doc: bytes, cur: nat, k: nat, acc: nat)
    requires k > 0 && cur + k <= |doc|
    ensures HexDigits(doc, cur, k, acc) ==
            match HexValue(doc[cur])
            case Some(d) => HexDigits(doc, cur + 1, k - 1, acc * 16 + d)
            case None => BadCodePoint(HexDigitExpected, cur + 1)
  {
  }

  lemma HexEnds(doc: bytes, cur: nat, acc: nat)
    requires cur <= |doc|
    ensures HexDigits(doc, cur, 0, acc) == CodePoint(acc, cur)
  {
  }

  method DecodeUnicodeEscapeSequence(doc: bytes, start: nat, end: nat) returns (r: CodePoint)
    requires start <= end <= |doc|
    ensures r == UnicodeEscapeSequence(doc, start, end)
  {
    hide HexDigits;
    var current := start;
    if end - current < 4 {
      return BadCodePoint(FourDigitsExpected, current);
    }
    var unicode := 0;
    for index := 0 to 4
      invariant current == start + index && unicode >= 0
      invariant UnicodeEscapeSequence(doc, start, end) == HexDigits(doc, current, 4 - index, unicode)
    {
      var c := doc[current];
      HexStep(doc, current, 4 - index, unicode);
      current := current + 1;
      unicode := unicode * 16;
      if ZERO <= c <= NINE {
        unicode := unicode + (c - ZERO);
      } else if 97 <= c <= 102 {
        unicode := unicode + (c - 97 + 10);
      } else if 65 <= c <= 70 {
        unicode := unicode + (c - 65 + 10);
      } else {
        return BadCodePoint(HexDigitExpected, current);
      }
    }
    HexEnds(doc, current, unicode);
    r := CodePoint(unicode, current);
  }

  method DecodeUnicodeCodePoint(doc: bytes, start: nat, end: nat) returns (r: CodePoint)
    requires start <= end <= |doc|
    ensures r == UnicodeCodePoint(doc, start, end)
  {
    r := DecodeUnicodeEscapeSequence(doc, start, end);
    if r.CodePoint? && 0xD800 <= r.cp <= 0xDBFF {
      var unicode, current := r.cp, r.next;
      if end - current < 6 {
        return BadCodePoint(SurrogateTooShort, current);
      }
      if doc[current] != BACKSLASH {
        return BadCodePoint(SecondEscapeExpected, current + 1);
      }
      if doc[current + 1] != LETTER_U {
        return BadCodePoint(SecondEscapeExpected, current + 2);
      }
      r := DecodeUnicodeEscapeSequence(doc, current + 2, end);
      if r.CodePoint? {
        r := CodePoint(0x10000 + unicode % 0x400 * 0x400 + r.cp % 0x400, r.next);
      }
    }
  }

  lemma DecodeUnfolds(doc: bytes, cur: nat, end: nat)
    requires cur <= end <= |doc|
    ensures DecodeText(doc, cur, end) ==
            match NextPiece(doc, cur, end)
            case Finished => Text([])
            case Piece(s, next) => Prepend(s, DecodeText(doc, next, end))
            case Broken(m, at) => BadText(m, at)
  {
  }

  method DecodeString(doc: bytes, start: nat, end: nat) returns (r: Text)
    requires start <= end <= |doc|
    ensures r == DecodeText(doc, start, end)
  {
    hide DecodeText, UnicodeCodePoint, CodePointToUtf8;
    var current := start;
    var decoded: bytes := [];
    PrependNothing(DecodeText(doc, start, end));
    while current != end
      invariant start <= current <= end
      invariant DecodeText(doc, start, end) == Prepend(decoded, DecodeText(doc, current, end))
      decreases end - current
    {
      ghost var before := decoded;
      ghost var at := current;
      ghost var piece: bytes := [];
      DecodeUnfolds(doc, at, end);
      var c := doc[current];
      current := current + 1;
      if c == QUOTE {
        break;
      } else if c == BACKSLASH {
        if current == end {
          return BadText(EmptyEscape, current);
        }
        var escape := doc[current];
        current := current + 1;
        if SimpleEscape(escape).Some? {
          piece := [SimpleEscape(escape).value];
          decoded := decoded + [SimpleEscape(escape).value];
        } else if escape == LETTER_U {
          var unicode := DecodeUnicodeCodePoint(doc, current, end);
          if unicode.BadCodePoint? {
            return BadText(unicode.message, unicode.at);
          }
          piece := CodePointToUtf8(unicode.cp);
          decoded := decoded + CodePointToUtf8(unicode.cp);
          current := unicode.next;
        } else {
          return BadText(BadEscape, current);
        }
      } else {
        piece := [c];
        decoded := decoded + [c];
      }
      assert NextPiece(doc, at, end) == Piece(piece, current);
      PrependTwice(before, piece, DecodeText(doc, current, end));
    }
    if current == end {
      DecodeUnfolds(doc, end, end);
    }
    r := Text(decoded);
  }

  lemma {:induction false} PrependNothing(t: Text)
    ensures Prepend([], t) == t
  {
    if t.Text? {
      assert [] + t.s == t.s;
    }
  }

  lemma {:induction false} PrependTwice(s: bytes, t: bytes, u: Text)
    ensures Prepend(s, Prepend(t, u)) == Prepend(s + t, u)
  {
    if u.Text? {
      assert s + (t + u.s) == s + t + u.s;
    }
  }

  // --------------------------------------------------------------------------- What a literal stands for

  /** A hexadecimal digit of either case and its value. */
  predicate HexIs(c: byte, d: int) {
    (48 <= c <= 57 && d == c - 48) || (65 <= c <= 70 && d == c - 55) || (97 <= c <= 102 && d == c - 87)
  }

  /** Four hexadecimal digits at `p`, each in either case, spell the number. */
  predicate HexAt(doc: bytes, p: nat, n: nat) {
    && p + 4 <= |doc|
    && HexIs(doc[p], n / 4096) && HexIs(doc[p + 1], n / 256 % 16)
    && HexIs(doc[p + 2], n / 16 % 16) && HexIs(doc[p + 3], n % 16)
  }

  /** The two-character escapes of section 7 of RFC 8259: the second character and what it stands for. */
  predicate TwoCharacterEscape(e: byte, c: byte) {
    || (e == 34 && c == 34) || (e == 92 && c == 92) || (e == 47 && c == 47) || (e == 98 && c == 8)
    || (e == 102 && c == 12) || (e == 110 && c == 10) || (e == 114 && c == 13) || (e == 116 && c == 9)
  }

  predicate EscapeAt(doc: bytes, p: nat, n: nat) {
    p + 6 <= |doc| && doc[p] == 92 && doc[p + 1] == 117 && HexAt(doc, p + 2, n)
  }

  /** One escape, or two when the first is a high surrogate; any second one is taken for the low half. */
  ghost predicate UnicodeAt(doc: bytes, p: nat, q: nat, t: bytes) {
    exists n: nat ::
      && EscapeAt(doc, p, n)
      && if 0xD800 <= n <= 0xDBFF then q == p + 12 && LowHalfAt(doc, p + 6, n, t)
         else q == p + 6 && t == CodePointToUtf8(n)
  }

  ghost predicate LowHalfAt(doc: bytes, p: nat, high: nat, t: bytes)
    requires 0xD800 <= high
  {
    exists low: nat :: EscapeAt(doc, p, low) && t == CodePointToUtf8(0x10000 + (high - 0xD800) * 0x400 + low % 0x400)
  }

  /** Between `p` and `q` stands one byte as it is, or an escape, for `t`. */
  ghost predicate PieceAt(doc: bytes, p: nat, q: nat, t: bytes) {
    && p < q <= |doc|
    && if doc[p] != 92 then doc[p] != 34 && q == p + 1 && t == [doc[p]]
       else if q == p + 2 then |t| == 1 && TwoCharacterEscape(doc[p + 1], t[0])
       else UnicodeAt(doc, p, q, t)
  }

  /** Between `p` and `q` stand pieces for `t`. */
  ghost predicate PiecesAt(doc: bytes, p: nat, q: nat, t: bytes)
    decreases q - p
  {
    if p == q then t == []
    else exists m, u :: p < m <= q && PieceAt(doc, p, m, u) && u <= t && PiecesAt(doc, m, q, t[|u|..])
  }

  // Pieces decode to what they stand for.

  lemma {:induction false} HexDecodes(doc: bytes, p: nat, n: nat)
    requires HexAt(doc, p, n)
    ensures HexDigits(doc, p, 4, 0) == CodePoint(n, p + 4)
  {
    hide HexDigits;
    var a, b, c, d := n / 4096, n / 256 % 16, n / 16 % 16, n % 16;
    HexStep(doc, p, 4, 0);
    HexStep(doc, p + 1, 3, a);
    HexStep(doc, p + 2, 2, a * 16 + b);
    HexStep(doc, p + 3, 1, (a * 16 + b) * 16 + c);
    HexEnds(doc, p + 4, ((a * 16 + b) * 16 + c) * 16 + d);
    FourDigits(n);
  }

  lemma {:induction false} FourDigits(n: nat)
    ensures (((n / 4096) * 16 + n / 256 % 16) * 16 + n / 16 % 16) * 16 + n % 16 == n
  {
    assert n / 16 / 16 == n / 256 && n / 256 / 16 == n / 4096;
  }

  lemma {:induction false} OneEscape(doc: bytes, p: nat, n: nat, end: nat)
    requires EscapeAt(doc, p, n) && p + 6 <= end <= |doc|
    ensures doc[p] == BACKSLASH && doc[p + 1] == LETTER_U
    ensures UnicodeEscapeSequence(doc, p + 2, end) == CodePoint(n, p + 6)
  {
    hide HexAt, HexDigits;
    HexDecodes(doc, p + 2, n);
  }

  lemma {:induction false} HighHalf(n: nat)
    requires 0xD800 <= n <= 0xDBFF
    ensures n % 0x400 == n - 0xD800
  {
  }

  lemma {:induction false} UnicodeDecodes(doc: bytes, p: nat, q: nat, t: bytes, end: nat)
    requires UnicodeAt(doc, p, q, t) && q <= end <= |doc|
    ensures NextPiece(doc, p, end) == Piece(t, q)
  {
    hide EscapeAt, UnicodeEscapeSequence, CodePointToUtf8;
    var n: nat :| EscapeAt(doc, p, n) &&
             if 0xD800 <= n <= 0xDBFF then q == p + 12 && LowHalfAt(doc, p + 6, n, t)
             else q == p + 6 && t == CodePointToUtf8(n);
    OneEscape(doc, p, n, end);
    if 0xD800 <= n <= 0xDBFF {
      var low: nat :| EscapeAt(doc, p + 6, low) && t == CodePointToUtf8(0x10000 + (n - 0xD800) * 0x400 + low % 0x400);
      OneEscape(doc, p + 6, low, end);
      HighHalf(n);
    }
  }

  /** A piece is decoded to what it stands for. */
  lemma {:induction false} PieceDecodes(doc: bytes, p: nat, q: nat, t: bytes, end: nat)
    requires PieceAt(doc, p, q, t) && q <= end <= |doc|
    ensures NextPiece(doc, p, end) == Piece(t, q)
  {
    hide UnicodeCodePoint, UnicodeAt;
    if doc[p] == 92 && q != p + 2 {
      UnicodeDecodes(doc, p, q, t, end);
    }
  }

  lemma HexIsNoQuote(doc: bytes, p: nat, n: nat)
    requires EscapeAt(doc, p, n)
    ensures forall k :: p + 2 <= k < p + 6 ==> doc[k] != QUOTE && doc[k] != BACKSLASH
    ensures doc[p] == BACKSLASH && p + 6 <= |doc|
  {
  }

  lemma {:induction false} EscapePassed(doc: bytes, p: nat, n: nat)
    requires EscapeAt(doc, p, n)
    ensures StringEnd(doc, p) == StringEnd(doc, p + 6)
  {
    hide EscapeAt;
    HexIsNoQuote(doc, p, n);
    assert StringEnd(doc, p) == StringEnd(doc, p + 2);
    assert StringEnd(doc, p + 4) == StringEnd(doc, p + 6);
  }

  /** The scanner passes over a piece. */
  lemma {:induction false} PiecePassed(doc: bytes, p: nat, q: nat, t: bytes)
    requires PieceAt(doc, p, q, t)
    ensures StringEnd(doc, p) == StringEnd(doc, q)
  {
    hide CodePointToUtf8, EscapeAt;
    if doc[p] == 92 && q != p + 2 {
      var n: nat :| EscapeAt(doc, p, n) &&
               if 0xD800 <= n <= 0xDBFF then q == p + 12 && LowHalfAt(doc, p + 6, n, t)
               else q == p + 6 && t == CodePointToUtf8(n);
      EscapePassed(doc, p, n);
      if 0xD800 <= n <= 0xDBFF {
        var low: nat :| EscapeAt(doc, p + 6, low) &&
                 t == CodePointToUtf8(0x10000 + (n - 0xD800) * 0x400 + low % 0x400);
        EscapePassed(doc, p + 6, low);
      }
    }
  }

  lemma DecodeOnePiece(doc: bytes, p: nat, next: nat, end: nat, s: bytes, t: bytes)
    requires p < next <= end <= |doc|
    requires NextPiece(doc, p, end) == Piece(s, next) && DecodeText(doc, next, end) == Text(t)
    ensures DecodeText(doc, p, end) == Text(s + t)
  {
  }

  /**
   A literal that mixes bytes as they are, two-character escapes and \u escapes decodes to what its
   pieces stand for, and the scanner stops right behind the quote after them.
   */
  lemma {:induction false} LiteralDecodes(doc: bytes, p: nat, q: nat, t: bytes)
    requires p <= q <= |doc| && PiecesAt(doc, p, q, t)
    ensures DecodeText(doc, p, q) == Text(t)
    ensures q < |doc| && doc[q] == 34 ==> StringEnd(doc, p) == (true, q + 1)
    decreases q - p
  {
    hide PieceAt, NextPiece;
    if p == q {
      EndOfPieces(doc, p);
    } else {
      var m, u :| p < m <= q && PieceAt(doc, p, m, u) && u <= t && PiecesAt(doc, m, q, t[|u|..]);
      PieceDecodes(doc, p, m, u, q);
      PiecePassed(doc, p, m, u);
      LiteralDecodes(doc, m, q, t[|u|..]);
      DecodeOnePiece(doc, p, m, q, u, t[|u|..]);
      assert u + t[|u|..] == t;
    }
  }

  lemma EndOfPieces(doc: bytes, p: nat)
    requires p <= |doc|
    ensures NextPiece(doc, p, p) == Finished && DecodeText(doc, p, p) == Text([])
  {
  }

  // What the decoder accepts consists of pieces.

  lemma {:induction false} HexValueIs(c: byte)
    ensures HexValue(c).Some? ==> HexIs(c, HexValue(c).value)
  {
  }

  lemma {:induction false} HexSpelled(doc: bytes, p: nat)
    requires p + 4 <= |doc| && HexDigits(doc, p, 4, 0).CodePoint?
    ensures HexAt(doc, p, HexDigits(doc, p, 4, 0).cp)
  {
    hide HexDigits, HexValue, HexIs;
    forall c: byte ensures HexValue(c).Some? ==> HexIs(c, HexValue(c).value) {
      HexValueIs(c);
    }
    HexStep(doc, p, 4, 0);
    var a := HexValue(doc[p]).value;
    HexStep(doc, p + 1, 3, a);
    var b := HexValue(doc[p + 1]).value;
    HexStep(doc, p + 2, 2, a * 16 + b);
    var c := HexValue(doc[p + 2]).value;
    HexStep(doc, p + 3, 1, (a * 16 + b) * 16 + c);
    var d := HexValue(doc[p + 3]).value;
    HexEnds(doc, p + 4, ((a * 16 + b) * 16 + c) * 16 + d);
    DigitsOf(a, b, c, d);
  }

  lemma {:induction false} DigitsOf(a: nat, b: nat, c: nat, d: nat)
    requires a < 16 && b < 16 && c < 16 && d < 16
    ensures
      var n := ((a * 16 + b) * 16 + c) * 16 + d;
      n / 4096 == a && n / 256 % 16 == b && n / 16 % 16 == c && n % 16 == d
  {
    var n := ((a * 16 + b) * 16 + c) * 16 + d;
    assert n / 16 == (a * 16 + b) * 16 + c;
    assert n / 256 == n / 16 / 16 == a * 16 + b;
    assert n / 4096 == n / 256 / 16;
  }

  lemma {:induction false} EscapeSpelled(doc: bytes, p: nat, end: nat)
    requires p + 2 <= end <= |doc| && doc[p] == BACKSLASH && doc[p + 1] == LETTER_U
    requires UnicodeEscapeSequence(doc, p + 2, end).CodePoint?
    ensures EscapeAt(doc, p, UnicodeEscapeSequence(doc, p + 2, end).cp)
  {
    hide HexDigits, HexAt;
    HexSpelled(doc, p + 2);
  }

  lemma {:induction false} UnicodeSpelled(doc: bytes, p: nat, end: nat)
    requires p + 2 <= end <= |doc| && doc[p] == BACKSLASH && doc[p + 1] == LETTER_U
    requires UnicodeCodePoint(doc, p + 2, end).CodePoint?
    ensures var r := UnicodeCodePoint(doc, p + 2, end); UnicodeAt(doc, p, r.next, CodePointToUtf8(r.cp))
  {
    hide UnicodeEscapeSequence, EscapeAt, CodePointToUtf8;
    var first := UnicodeEscapeSequence(doc, p + 2, end);
    EscapeSpelled(doc, p, end);
    if 0xD800 <= first.cp <= 0xDBFF {
      EscapeSpelled(doc, p + 6, end);
      HighHalf(first.cp);
      var low := UnicodeEscapeSequence(doc, p + 8, end).cp;
      assert LowHalfAt(doc, p + 6, first.cp, CodePointToUtf8(UnicodeCodePoint(doc, p + 2, end).cp));
    }
  }

  lemma {:induction false} DecodedPiece(doc: bytes, p: nat, end: nat)
    requires p <= end <= |doc| && NextPiece(doc, p, end).Piece?
    ensures PieceAt(doc, p, NextPiece(doc, p, end).next, NextPiece(doc, p, end).s)
  {
    hide UnicodeCodePoint, CodePointToUtf8, UnicodeAt;
    if doc[p] == BACKSLASH && !SimpleEscape(doc[p + 1]).Some? {
      UnicodeSpelled(doc, p, end);
      UnicodeIsLong(doc, p, NextPiece(doc, p, end).next, NextPiece(doc, p, end).s);
    }
  }

  lemma UnicodeIsLong(doc: bytes, p: nat, q: nat, t: bytes)
    requires UnicodeAt(doc, p, q, t)
    ensures q >= p + 6
  {
  }

  /** A literal the scanner finds and the decoder accepts consists of pieces. */
  lemma {:induction false} DecodedLiteral(doc: bytes, p: nat, q: nat)
    requires p <= q < |doc| && StringEnd(doc, p) == (true, q + 1) && DecodeText(doc, p, q).Text?
    ensures PiecesAt(doc, p, q, DecodeText(doc, p, q).s)
    decreases q - p
  {
    hide PieceAt, NextPiece;
    if p == q {
      EndOfPieces(doc, p);
    } else {
      NotFinished(doc, p, q);
      var piece := NextPiece(doc, p, q);
      DecodedPiece(doc, p, q);
      PiecePassed(doc, p, piece.next, piece.s);
      DecodedLiteral(doc, piece.next, q);
      var t := DecodeText(doc, p, q).s;
      assert t == piece.s + DecodeText(doc, piece.next, q).s;
      assert t[|piece.s|..] == DecodeText(doc, piece.next, q).s;
    }
  }

  lemma NotFinished(doc: bytes, p: nat, q: nat)
    requires p < q < |doc| && StringEnd(doc, p) == (true, q + 1)
    ensures !NextPiece(doc, p, q).Finished?
  {
  }

  // What the decoder refuses, and where.

  predicate IsHexDigit(c: byte) {
    48 <= c <= 57 || 65 <= c <= 70 || 97 <= c <= 102
  }

  /** Among four digits that begin at `p`, the first that is no hexadecimal digit is the one before `at`. */
  predicate BadHexAt(doc: bytes, p: nat, at: nat) {
    && p < at <= p + 4 <= |doc| && !IsHexDigit(doc[at - 1])
    && forall i :: p <= i < at - 1 ==> IsHexDigit(doc[i])
  }

  /** After a backslash and u at `p`: digits that are missing or none. */
  predicate BadDigitsAt(doc: bytes, p: nat, end: nat, m: StringMessage, at: nat) {
    || (end < p + 6 && m == FourDigitsExpected && at == p + 2)
    || (p + 6 <= end && m == HexDigitExpected && BadHexAt(doc, p + 2, at))
  }

  predicate IsUnicodeEscape(doc: bytes, p: nat, end: nat) {
    p + 2 <= end <= |doc| && doc[p] == 92 && doc[p + 1] == 117
  }

  /** At `p` begins an escape that is broken; `at` is the place the error refers to. */
  ghost predicate BrokenAt(doc: bytes, p: nat, end: nat, m: StringMessage, at: nat) {
    && p < end <= |doc| && doc[p] == 92
    && if p + 1 == end then m == EmptyEscape && at == end
       else if doc[p + 1] != 117 then
         m == BadEscape && at == p + 2 && doc[p + 1] !in {34, 92, 47, 98, 102, 110, 114, 116}
       else BadDigitsAt(doc, p, end, m, at) || exists n: nat :: EscapeAt(doc, p, n) && BadLowHalf(doc, p, end, n, m, at)
  }

  /** The second escape that must follow a high surrogate is missing or broken. */
  predicate BadLowHalf(doc: bytes, p: nat, end: nat, n: nat, m: StringMessage, at: nat)
    requires EscapeAt(doc, p, n) && end <= |doc|
  {
    && 0xD800 <= n <= 0xDBFF && p + 6 <= end
    && if end < p + 12 then m == SurrogateTooShort && at == p + 6
       else if doc[p + 6] != 92 then m == SecondEscapeExpected && at == p + 7
       else if doc[p + 7] != 117 then m == SecondEscapeExpected && at == p + 8
       else BadDigitsAt(doc, p + 6, end, m, at)
  }

  lemma {:induction false} HexFails(doc: bytes, p: nat, k: nat, acc: nat)
    requires p + k <= |doc| && HexDigits(doc, p, k, acc).BadCodePoint?
    ensures
      var r := HexDigits(doc, p, k, acc);
      && r.message == HexDigitExpected && p < r.at <= p + k && !IsHexDigit(doc[r.at - 1])
      && forall i :: p <= i < r.at - 1 ==> IsHexDigit(doc[i])
    decreases k
  {
    if HexValue(doc[p]).Some? {
      HexFails(doc, p + 1, k - 1, acc * 16 + HexValue(doc[p]).value);
    }
  }

  lemma {:induction false} DigitsFail(doc: bytes, p: nat, end: nat)
    requires IsUnicodeEscape(doc, p, end) && UnicodeEscapeSequence(doc, p + 2, end).BadCodePoint?
    ensures
      var r := UnicodeEscapeSequence(doc, p + 2, end);
      BadDigitsAt(doc, p, end, r.message, r.at)
  {
    hide HexDigits, HexValue;
    if p + 6 <= end {
      HexFails(doc, p + 2, 4, 0);
    }
  }

  lemma {:induction false} UnicodeFails(doc: bytes, p: nat, end: nat)
    requires IsUnicodeEscape(doc, p, end) && UnicodeCodePoint(doc, p + 2, end).BadCodePoint?
    ensures var r := UnicodeCodePoint(doc, p + 2, end); BrokenAt(doc, p, end, r.message, r.at)
  {
    hide UnicodeEscapeSequence, BadDigitsAt, EscapeAt;
    var first, r := UnicodeEscapeSequence(doc, p + 2, end), UnicodeCodePoint(doc, p + 2, end);
    if first.BadCodePoint? {
      DigitsFail(doc, p, end);
    } else {
      EscapeSpelled(doc, p, end);
      if end >= p + 12 && doc[p + 6] == 92 && doc[p + 7] == 117 {
        DigitsFail(doc, p + 6, end);
      }
      assert BadLowHalf(doc, p, end, first.cp, r.message, r.at);
    }
  }

  lemma {:induction false} PieceFails(doc: bytes, p: nat, end: nat)
    requires p <= end <= |doc| && NextPiece(doc, p, end).Broken?
    ensures var r := NextPiece(doc, p, end); BrokenAt(doc, p, end, r.message, r.at)
  {
    hide UnicodeCodePoint, EscapeAt, BadLowHalf, BadDigitsAt;
    if p + 1 < end && doc[p + 1] == LETTER_U {
      hide BrokenAt;
      UnicodeFails(doc, p, end);
    }
  }

  /** A refused literal has pieces before a broken escape, and the error tells what is wrong with that and where. */
  lemma {:induction false} LiteralRefused(doc: bytes, p: nat, q: nat) returns (b: nat, t: bytes)
    requires p <= q <= |doc| && DecodeText(doc, p, q).BadText?
    ensures p <= b < q && PiecesAt(doc, p, b, t)
    ensures var r := DecodeText(doc, p, q); BrokenAt(doc, b, q, r.message, r.at)
    decreases q - p
  {
    hide PieceAt, NextPiece, BrokenAt;
    var piece := NextPiece(doc, p, q);
    if piece.Broken? {
      PieceFails(doc, p, q);
      assert p < q by {
        BrokenInside(doc, p, q, piece.message, piece.at);
      }
      b, t := p, [];
    } else {
      DecodedPiece(doc, p, q);
      var u: bytes;
      b, u := LiteralRefused(doc, piece.next, q);
      t := piece.s + u;
      assert t[|piece.s|..] == u && piece.s <= t;
    }
  }

  lemma BrokenInside(doc: bytes, p: nat, q: nat, m: StringMessage, at: nat)
    requires BrokenAt(doc, p, q, m, at)
    ensures p < q
  {
  }

  // --------------------------------------------------------------------------- Round trips

  /** How each byte is written: seven have a short escape, other control characters four upper-case digits. */
  lemma EscapedForms(c: byte)
    ensures c == 34 ==> EscapeByte(c) == [92, 34]
    ensures c == 92 ==> EscapeByte(c) == [92, 92]
    ensures c == 8 ==> EscapeByte(c) == [92, 98]
    ensures c == 9 ==> EscapeByte(c) == [92, 116]
    ensures c == 10 ==> EscapeByte(c) == [92, 110]
    ensures c == 12 ==> EscapeByte(c) == [92, 102]
    ensures c == 13 ==> EscapeByte(c) == [92, 114]
    ensures c < 32 && c !in {8, 9, 10, 12, 13} ==>
              EscapeByte(c) == [92, 117, 48, 48, 48 + c / 16, c % 16 + if c % 16 < 10 then 48 else 55]
    ensures c >= 32 && c != 34 && c != 92 ==> EscapeByte(c) == [c]
  {
  }

  lemma {:induction false} AtSplit(doc: bytes, p: nat, s: bytes, t: bytes)
    requires At(doc, p, s + t)
    ensures At(doc, p, s) && At(doc, p + |s|, t)
  {
    assert doc[p..p + |s|] == (s + t)[..|s|];
    assert doc[p + |s|..p + |s| + |t|] == (s + t)[|s|..];
  }

  lemma {:induction false} AtIndex(doc: bytes, p: nat, t: bytes, i: nat)
    requires At(doc, p, t) && i < |t|
    ensures p + |t| <= |doc| && doc[p + i] == t[i]
  {
    assert doc[p..p + |t|][i] == t[i];
  }

  lemma {:induction false} Peel(doc: bytes, p: nat, s: bytes, t: bytes, u: bytes)
    requires At(doc, p, s + t + u)
    ensures At(doc, p, s) && At(doc, p + |s|, t + u)
  {
    assert s + t + u == s + (t + u);
    AtSplit(doc, p, s, t + u);
  }

  /** An escaped byte is a piece for the byte. */
  lemma {:induction false} EscapedPiece(doc: bytes, p: nat, c: byte)
    requires At(doc, p, EscapeByte(c))
    ensures PieceAt(doc, p, p + |EscapeByte(c)|, [c])
  {
    hide EscapeByte;
    var e := EscapeByte(c);
    EscapedForms(c);
    forall i | 0 <= i < |e| ensures p + |e| <= |doc| && doc[p + i] == e[i] {
      AtIndex(doc, p, e, i);
    }
    if c < 32 && c !in {8, 9, 10, 12, 13} {
      hide CodePointToUtf8;
      assert EscapeAt(doc, p, c) && CodePointToUtf8(c) == [c] by {
        SmallCodePoint(c);
        ControlDigits(doc, p, c);
      }
      assert UnicodeAt(doc, p, p + 6, [c]);
    }
  }

  lemma SmallCodePoint(c: byte)
    requires c < 32
    ensures CodePointToUtf8(c) == [c]
  {
  }

  lemma ControlDigits(doc: bytes, p: nat, c: byte)
    requires c < 32 && p + 6 <= |doc|
    requires doc[p + 2] == 48 && doc[p + 3] == 48 && doc[p + 4] == 48 + c / 16
    requires doc[p + 5] == c % 16 + if c % 16 < 10 then 48 else 55
    ensures HexAt(doc, p + 2, c)
  {
  }

  /** The escaped text of a string consists of pieces for it. */
  lemma {:induction false} EscapedPieces(doc: bytes, p: nat, s: bytes)
    requires At(doc, p, EscapeText(s))
    ensures PiecesAt(doc, p, p + |EscapeText(s)|, s)
    decreases |s|
  {
    hide EscapeByte, PieceAt, At;
    if s != [] {
      var m := p + |EscapeByte(s[0])|;
      AtSplit(doc, p, EscapeByte(s[0]), EscapeText(s[1..]));
      EscapedPiece(doc, p, s[0]);
      EscapedPieces(doc, m, s[1..]);
      assert [s[0]] <= s && s[|[s[0]]|..] == s[1..];
    }
  }

  /**
   Wherever the quoted form of any byte string stands, the scanner stops right after its closing
   quote and the decoder returns the string.
   */
  lemma {:induction false} EscapedTextReadsBack(doc: bytes, p: nat, s: bytes, close: nat)
    requires At(doc, p, EscapeText(s) + [QUOTE]) && close == p + |EscapeText(s)|
    ensures StringEnd(doc, p) == (true, close + 1)
    ensures DecodeText(doc, p, close) == Text(s)
  {
    hide StringEnd, DecodeText, PiecesAt, EscapeText;
    AtSplit(doc, p, EscapeText(s), [QUOTE]);
    AtIndex(doc, close, [QUOTE], 0);
    EscapedPieces(doc, p, s);
    LiteralDecodes(doc, p, close, s);
  }

  /** A string is recovered from its quoted form alone. */
  lemma {:induction false} QuotedReadsBack(s: bytes)
    ensures
      var q := Quoted(s);
      StringEnd(q, 1) == (true, |q|) && DecodeText(q, 1, |q| - 1) == Text(s)
  {
    var q := Quoted(s);
    assert q[1..1 + |EscapeText(s) + [QUOTE]|] == EscapeText(s) + [QUOTE];
    EscapedTextReadsBack(q, 1, s, |q| - 1);
  }

  function EscapeLength(cp: nat): nat {
    if cp < 0x10000 then 6 else 12
  }

  /** At `p` stands a scalar as one escape, or as a surrogate pair above the basic plane. */
  predicate ScalarAt(doc: bytes, p: nat, cp: nat) {
    if cp < 0x10000 then EscapeAt(doc, p, cp)
    else EscapeAt(doc, p, 0xD800 + (cp - 0x10000) / 0x400) && EscapeAt(doc, p + 6, 0xDC00 + (cp - 0x10000) % 0x400)
  }

  /** From `p` to `end` stand the scalars as escapes, each of their digits in either case. */
  predicate ScalarsAt(doc: bytes, p: nat, cps: seq<nat>, end: nat)
    decreases |cps|
  {
    if cps == [] then p == end
    else ScalarAt(doc, p, cps[0]) && ScalarsAt(doc, p + EscapeLength(cps[0]), cps[1..], end)
  }

  function Utf8(cps: seq<nat>): bytes {
    if cps == [] then [] else CodePointToUtf8(cps[0]) + Utf8(cps[1..])
  }

  lemma {:induction false} HalvesOfScalar(v: nat)
    requires v < 0x10_0000
    ensures 0xD800 <= 0xD800 + v / 0x400 <= 0xDBFF
    ensures v / 0x400 * 0x400 + (0xDC00 + v % 0x400) % 0x400 == v
  {
    assert (0xDC00 + v % 0x400) % 0x400 == v % 0x400;
  }

  lemma {:induction false} ScalarPiece(doc: bytes, p: nat, cp: nat)
    requires IsScalar(cp) && ScalarAt(doc, p, cp)
    ensures PieceAt(doc, p, p + EscapeLength(cp), CodePointToUtf8(cp))
  {
    hide HexAt, CodePointToUtf8;
    if cp >= 0x10000 {
      var high := 0xD800 + (cp - 0x10000) / 0x400;
      HalvesOfScalar(cp - 0x10000);
      assert LowHalfAt(doc, p + 6, high, CodePointToUtf8(cp));
    }
    assert UnicodeAt(doc, p, p + EscapeLength(cp), CodePointToUtf8(cp));
  }

  lemma {:induction false} ScalarPieces(doc: bytes, p: nat, cps: seq<nat>, end: nat)
    requires forall i :: 0 <= i < |cps| ==> IsScalar(cps[i])
    requires ScalarsAt(doc, p, cps, end) && p <= |doc|
    ensures p <= end <= |doc| && PiecesAt(doc, p, end, Utf8(cps))
    decreases |cps|
  {
    hide CodePointToUtf8, PieceAt, ScalarAt;
    if cps != [] {
      var m, u := p + EscapeLength(cps[0]), CodePointToUtf8(cps[0]);
      ScalarPiece(doc, p, cps[0]);
      assert m <= |doc| by {
        InsideOfPiece(doc, p, m, u);
      }
      ScalarPieces(doc, m, cps[1..], end);
      assert Utf8(cps)[|u|..] == Utf8(cps[1..]) && u <= Utf8(cps);
    }
  }

  lemma InsideOfPiece(doc: bytes, p: nat, q: nat, t: bytes)
    requires PieceAt(doc, p, q, t)
    ensures p < q <= |doc|
  {
  }

  /** Unicode scalars written as escapes decode to their UTF-8 form. */
  lemma {:induction false} ScalarEscapesDecode(doc: bytes, p: nat, cps: seq<nat>, end: nat)
    requires forall i :: 0 <= i < |cps| ==> IsScalar(cps[i])
    requires p <= |doc| && ScalarsAt(doc, p, cps, end)
    ensures p <= end <= |doc| && DecodeText(doc, p, end) == Text(Utf8(cps))
  {
    hide PiecesAt, ScalarsAt;
    ScalarPieces(doc, p, cps, end);
    LiteralDecodes(doc, p, end, Utf8(cps));
  }
}
