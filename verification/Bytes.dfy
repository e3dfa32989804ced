/** Bytes, the characters the JSON code compares against, and an option type. */
module Bytes {
  type byte = b: int | 0 <= b < 256
  type bytes = seq<byte>

  datatype Option<+T> = None | Some(value: T)

  const NUL: byte := 0
  const BACKSPACE: byte := 8
  const TAB: byte := 9
  const LINE_FEED: byte := 10
  const FORM_FEED: byte := 12
  const RETURN: byte := 13
  const SPACE: byte := 32
  const QUOTE: byte := 34
  const STAR: byte := 42
  const PLUS: byte := 43
  const COMMA: byte := 44
  const MINUS: byte := 45
  const DOT: byte := 46
  const SLASH: byte := 47
  const ZERO: byte := 48
  const NINE: byte := 57
  const COLON: byte := 58
  const LEFT_BRACKET: byte := 91
  const BACKSLASH: byte := 92
  const RIGHT_BRACKET: byte := 93
  const LEFT_BRACE: byte := 123
  const RIGHT_BRACE: byte := 125

  // The letters "null", "true" and "false".
  const NULL_TEXT: bytes := [110, 117, 108, 108]
  const TRUE_TEXT: bytes := [116, 114, 117, 101]
  const FALSE_TEXT: bytes := [102, 97, 108, 115, 101]

  predicate IsSpace(c: byte) {
    c == SPACE || c == TAB || c == RETURN || c == LINE_FEED
  }

  predicate IsDigit(c: byte) {
    ZERO <= c <= NINE
  }

  /** `text` stands in `doc` at position `p`. */
  predicate At(doc: bytes, p: nat, text: bytes) {
    p + |text| <= |doc| && doc[p..p + |text|] == text
  }

  /** Reading one character, with the terminating zero of a C string past the end. */
  function CharAt(doc: bytes, p: nat): byte {
    if p < |doc| then doc[p] else NUL
  }
}
