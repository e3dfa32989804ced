/**
 Decimal integers: the text the writers print (json_writer.cpp, json_tool.h) and the
 number decoder of the reader (json_reader.cpp), with their 64-bit ranges written out.
 */
module JsonNumber {
  import opened Bytes

  const TWO_63: int := 0x8000_0000_0000_0000
  const TWO_64: int := 0x1_0000_0000_0000_0000
  const MAX_INT: int := 0x7FFF_FFFF

  type int64 = i: int | -TWO_63 <= i < TWO_63
  type uint64 = u: int | 0 <= u < TWO_64

  /** Conversion to uint64, modulo 2^64. */
  function ToUInt64(i: int): (u: uint64)
    requires -TWO_64 <= i < TWO_64
  {
    if i < 0 then i + TWO_64 else i
  }

  /** Conversion of a uint64 to int64 by two's complement. */
  function ToInt64(u: uint64): (i: int64) {
    if u < TWO_63 then u else u - TWO_64
  }

  /** Decimal digits of a natural number, most significant first, no leading zero. */
  function DecText(n: nat): (s: bytes)
    ensures |s| >= 1
    ensures AllDigits(s)
  {
    if n < 10 then [ZERO + n] else DecText(n / 10) + [ZERO + n % 10]
  }

  predicate AllDigits(s: bytes) {
    forall i :: 0 <= i < |s| ==> IsDigit(s[i])
  }

  /** The number a digit string denotes. */
  function NatValue(s: bytes): (n: nat)
    requires AllDigits(s)
  {
    if s == [] then 0 else 10 * NatValue(s[..|s| - 1]) + (s[|s| - 1] - ZERO)
  }

  /** The text of a signed integer. */
  function IntText(i: int): bytes {
    if i < 0 then [MINUS] + DecText(-i) else DecText(i)
  }

  lemma {:induction false} NatValueOfDecText(n: nat)
    ensures NatValue(DecText(n)) == n
  {
    if n >= 10 {
      NatValueOfDecText(n / 10);
      assert DecText(n)[..|DecText(n)| - 1] == DecText(n / 10);
    }
  }

  function Pow10(k: nat): (r: nat)
    ensures r >= 1
  {
    if k == 0 then 1 else 10 * Pow10(k - 1)
  }

  lemma {:induction false} DecTextLength(n: nat, k: nat)
    requires k >= 1 && n < Pow10(k)
    ensures |DecText(n)| <= k
  {
    if n >= 10 {
      assert k >= 2;
      DecTextLength(n / 10, k - 1);
    }
  }

  /** No 64-bit number needs more than 20 digits. */
  lemma {:induction false} DecTextFits(n: nat)
    requires n < TWO_64
    ensures |DecText(n)| <= 20
  {
    assert Pow10(20) == 100_0000_0000_0000_0000_00 by {
      assert Pow10(5) == 100000;
      assert Pow10(10) == 10000000000;
      assert Pow10(15) == 1000000000000000;
    }
    DecTextLength(n, 20);
  }

  lemma {:induction false} NatValueAppend(s: bytes, c: byte)
    requires AllDigits(s) && IsDigit(c)
    ensures AllDigits(s + [c])
    ensures NatValue(s + [c]) == 10 * NatValue(s) + (c - ZERO)
  {
    assert (s + [c])[..|s + [c]| - 1] == s;
  }

  /** Appending digits never makes the value smaller, and each one multiplies it by ten. */
  lemma {:induction false} NatValueGrows(s: bytes, t: bytes)
    requires AllDigits(s) && AllDigits(t)
    ensures AllDigits(s + t)
    ensures NatValue(s) <= NatValue(s + t)
    ensures |t| >= 1 ==> 10 * NatValue(s) <= NatValue(s + t)
  {
    if t == [] {
      assert s + t == s;
    } else {
      var front, last := t[..|t| - 1], t[|t| - 1];
      NatValueGrows(s, front);
      assert s + t == (s + front) + [last];
      NatValueAppend(s + front, last);
    }
  }

  const BUFFER_SIZE: nat := 25  // 3 * sizeof(LargestUInt) + 1

  /** The digits still to be printed. */
  function Leading(rest: nat): bytes {
    if rest == 0 then [] else DecText(rest)
  }

  lemma {:induction false} LeadingStep(rest: nat, printed: bytes)
    requires rest > 0
    ensures Leading(rest) + printed == Leading(rest / 10) + ([ZERO + rest % 10] + printed)
    ensures |Leading(rest)| >= 1
  {
    hide AllDigits;
    if rest < 10 {
      assert Leading(rest) == [ZERO + rest % 10];
    } else {
      assert DecText(rest / 10) + [ZERO + rest % 10] + printed == DecText(rest / 10) + ([ZERO + rest % 10] + printed);
    }
  }

  /** Writes the digits of `value` and a terminating zero backwards from `start`. */
  method UIntToString(value: uint64, buffer: array<byte>, start: nat) returns (current: nat)
    requires buffer.Length == BUFFER_SIZE && start == BUFFER_SIZE
    modifies buffer
    ensures 4 <= current < BUFFER_SIZE - 1
    ensures buffer[current..BUFFER_SIZE - 1] == DecText(value) && buffer[BUFFER_SIZE - 1] == NUL
  {
    hide DecText, Leading;
    DecTextFits(value);
    current := start - 1;
    buffer[current] := NUL;
    var rest: nat := value;
    current := current - 1;
    buffer[current] := rest % 10 + ZERO;
    FirstDigit(value);
    rest := rest / 10;
    ghost var printed := buffer[current..BUFFER_SIZE - 1];
    assert printed == [value % 10 + ZERO];
    while rest != 0
      invariant 0 <= current < BUFFER_SIZE - 1 && buffer[BUFFER_SIZE - 1] == NUL
      invariant printed == buffer[current..BUFFER_SIZE - 1]
      invariant DecText(value) == Leading(rest) + printed && |DecText(value)| <= 20
      decreases rest
    {
      LeadingStep(rest, printed);
      assert |Leading(rest)| + |printed| <= 20;
      ghost var tail := printed;
      current := current - 1;
      buffer[current] := rest % 10 + ZERO;
      printed := buffer[current..BUFFER_SIZE - 1];
      assert printed == [ZERO + rest % 10] + tail;
      rest := rest / 10;
    }
    NothingLeading();
    assert [] + printed == printed;
  }

  lemma {:induction false} FirstDigit(value: nat)
    ensures DecText(value) == Leading(value / 10) + [value % 10 + ZERO]
  {
    hide AllDigits;
    if value < 10 {
      assert Leading(value / 10) == [];
    }
  }

  lemma NothingLeading()
    ensures Leading(0) == []
  {
  }

  /** The text of an unsigned value; the string ends at the terminating zero. */
  method ValueToStringUnsigned(value: uint64) returns (text: bytes)
    ensures text == DecText(value)
  {
    var buffer := new byte[BUFFER_SIZE](_ => 0);
    var current := UIntToString(value, buffer, BUFFER_SIZE);
    text := buffer[current..BUFFER_SIZE - 1];
  }

  /** The text of a signed value; negation and conversion wrap modulo 2^64. */
  method ValueToStringSigned(value: int64) returns (text: bytes)
    ensures text == IntText(value)
  {
    var buffer := new byte[BUFFER_SIZE](_ => 0);
    var isNegative := value < 0;
    var magnitude := if isNegative then ToUInt64(0 - value) else value;
    var current := UIntToString(magnitude, buffer, BUFFER_SIZE);
    ghost var digits := buffer[current..BUFFER_SIZE - 1];
    if isNegative {
      current := current - 1;
      buffer[current] := MINUS;
      assert buffer[current..BUFFER_SIZE - 1] == [MINUS] + digits;
    }
    text := buffer[current..BUFFER_SIZE - 1];
  }

  /** What the decoder makes of a number token: an exact integer with its tag, or a double. */
  datatype Decoded = SignedInteger(i: int64) | UnsignedInteger(u: uint64) | UseDouble

  /**
   The exact value of an optional minus followed by digits where it fits 64 bits. Non-negative
   values above the maximal int carry the unsigned tag.
   */
  function DecodeSpec(text: bytes): (r: Decoded) {
    var negative := text != [] && text[0] == MINUS;
    var digits := if negative then text[1..] else text;
    if !AllDigits(digits) then UseDouble
    else
      var n: int := NatValue(digits);
      if negative then
        if n <= TWO_63 then SignedInteger(-n) else UseDouble
      else if n <= MAX_INT then SignedInteger(n)
      else if n < TWO_64 then UnsignedInteger(n)
      else UseDouble
  }

  /**
   The decoder's loop over the characters of a number token: it stops before the accumulator could
   pass the maximum, so it needs no wider arithmetic.
   */
  method DecodeNumber(text: bytes) returns (r: Decoded)
    requires text != []
    ensures r == DecodeSpec(text)
  {
    var isNegative := text[0] == MINUS;
    var first := if isNegative then 1 else 0;
    ghost var digits := text[first..];
    var maxIntegerValue: uint64 := if isNegative then TWO_63 else TWO_64 - 1;
    var threshold: uint64 := maxIntegerValue / 10;
    var value: uint64 := 0;
    var current := first;
    while current < |text|
      invariant first <= current <= |text|
      invariant AllDigits(digits[..current - first])
      invariant value == NatValue(digits[..current - first]) && value <= maxIntegerValue
    {
      var c := text[current];
      ghost var k := current - first;
      current := current + 1;
      if c < ZERO || c > NINE {
        assert digits[k] == c;
        return UseDouble;
      }
      var digit := c - ZERO;
      NextDigit(digits, k);
      if value >= threshold {
        if value > threshold || current != |text| || digit > maxIntegerValue % 10 {
          TooLarge(digits, k + 1, maxIntegerValue);
          return UseDouble;
        }
      }
      value := value * 10 + digit;
    }
    assert digits[..|digits|] == digits;
    if isNegative {
      NegationWraps(value);
      return SignedInteger(ToInt64(ToUInt64(0 - ToInt64(value))));
    } else if value <= MAX_INT {
      return SignedInteger(ToInt64(value));
    } else {
      return UnsignedInteger(value);
    }
  }

  lemma {:induction false} NextDigit(digits: bytes, k: nat)
    requires k < |digits| && AllDigits(digits[..k]) && IsDigit(digits[k])
    ensures AllDigits(digits[..k + 1])
    ensures NatValue(digits[..k + 1]) == 10 * NatValue(digits[..k]) + (digits[k] - ZERO)
  {
    assert digits[..k + 1] == digits[..k] + [digits[k]];
    NatValueAppend(digits[..k], digits[k]);
  }

  /** Negating a magnitude up to 2^63 is exact: the most negative value wraps to itself. */
  lemma NegationWraps(value: uint64)
    requires value <= TWO_63
    ensures ToInt64(ToUInt64(0 - ToInt64(value))) == 0 - value
  {
  }

  /** Why giving up at position `k` is right: the whole digit string exceeds the maximum. */
  lemma {:induction false} TooLarge(digits: bytes, k: nat, max: uint64)
    requires max == TWO_63 || max == TWO_64 - 1
    requires 1 <= k <= |digits| && AllDigits(digits[..k])
    requires var before := NatValue(digits[..k - 1]);
             before > max / 10 || (before == max / 10 && (k < |digits| || digits[k - 1] - ZERO > max % 10))
    ensures AllDigits(digits) ==> NatValue(digits) > max
  {
    if AllDigits(digits) {
      NextDigit(digits, k - 1);
      assert digits == digits[..k] + digits[k..];
      NatValueGrows(digits[..k], digits[k..]);
    }
  }

  /** The tag an integer carries after a round trip through text. */
  function Retag(i: int): Decoded
    requires -TWO_63 <= i < TWO_64
  {
    if i <= MAX_INT then SignedInteger(i) else UnsignedInteger(i)
  }

  /** The decoder inverts the printer on every signed and unsigned 64-bit value. */
  lemma {:induction false} DecodeInvertsText(i: int)
    requires -TWO_63 <= i < TWO_64
    ensures DecodeSpec(IntText(i)) == Retag(i)
  {
    hide DecText, NatValue;
    if i < 0 {
      assert IntText(i)[1..] == DecText(-i);
      NatValueOfDecText(-i);
    } else {
      NatValueOfDecText(i);
    }
  }

  /**
   For an optional minus and any non-empty digit string, leading zeros and any length included, the
   result is the exact integer if and only if the integer fits 64 bits; otherwise a double is read.
   */
  lemma {:induction false} DecodeExact(negative: bool, digits: bytes)
    requires digits != [] && AllDigits(digits)
    ensures
      var n: int := NatValue(digits);
      var value := if negative then -n else n;
      var r := DecodeSpec(if negative then [MINUS] + digits else digits);
      && (-TWO_63 <= value < TWO_64 <==> !r.UseDouble?)
      && (-TWO_63 <= value < TWO_64 ==> r == Retag(value))
  {
    if negative {
      assert ([MINUS] + digits)[1..] == digits;
    }
  }
}
