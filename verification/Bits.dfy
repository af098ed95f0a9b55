/** The bit operations of utf16_literal_to_utf8, on 32-bit words, are the arithmetic that
    module Utf16 is written in. */
module Bits {
  import opened Bytes

  lemma SplitLow16(x: bv32)
    requires x < 0x10000
    ensures x as int == (x >> 6) as int * 64 + (x & 63) as int
    ensures (x & 63) as int < 64
  {}

  lemma SplitTop(x: bv32)
    requires x < 0x110000
    ensures x as int == (x >> 16) as int * 0x10000 + (x & 0xFFFF) as int
    ensures (x >> 6) as int == (x >> 16) as int * 1024 + ((x & 0xFFFF) >> 6) as int
    ensures (x & 0xFFFF) & 63 == x & 63
  {}

  lemma Quotient64(x: int, q: int, r: int, top: int, low: int, lowQ: int)
    requires x == top * 0x10000 + low && q == top * 1024 + lowQ && low == lowQ * 64 + r && 0 <= r < 64
    ensures q == x / 64 && r == x % 64
  {}

  /** `codepoint >>= 6` divides by 64, and the six low bits are the remainder. */
  lemma ShiftSix(x: bv32)
    requires x < 0x110000
    ensures (x >> 6) as int == x as int / 64
    ensures (x & 63) as int == x as int % 64
  {
    SplitTop(x);
    var low := x & 0xFFFF;
    assert low < 0x10000;
    SplitLow16(low);
    Quotient64(x as int, (x >> 6) as int, (x & 63) as int, (x >> 16) as int, low as int, (low >> 6) as int);
  }

  lemma ContinuationByte(x: bv32)
    requires x < 0x110000
    ensures ((x | 0x80) & 0xBF) as int == 0x80 + x as int % 64
  {
    assert (x | 0x80) & 0xBF == 0x80 | (x & 63);
    assert x & 63 < 64;
    MarkBits(x & 63);
    ShiftSix(x);
  }

  lemma MarkBits(b: bv32)
    requires b < 64
    ensures (0x80 | b) as int == 0x80 + b as int
  {}

  /** The first byte of a sequence of two, three or four bytes, and of one byte. */
  lemma FirstByte(x: bv32)
    ensures x < 0x20 ==> ((x | 0xC0) & 0xFF) as int == 0xC0 + x as int
    ensures x < 0x10 ==> ((x | 0xE0) & 0xFF) as int == 0xE0 + x as int
    ensures x < 0x08 ==> ((x | 0xF0) & 0xFF) as int == 0xF0 + x as int
    ensures x < 0x80 ==> x & 0x7F == x
  {}

  /** The code point of a surrogate pair. */
  lemma SurrogatePair(high: bv32, low: bv32)
    requires 0xD800 <= high <= 0xDBFF && 0xDC00 <= low <= 0xDFFF
    ensures (0x10000 + (((high & 0x3FF) << 10) | (low & 0x3FF))) as int
         == 0x10000 + (high as int - 0xD800) * 1024 + (low as int - 0xDC00)
  {}

  /** The shift of parse_hex4. */
  lemma HexShift(h: bv32, digit: bv32)
    requires h < 0x1000 && digit < 16
    ensures ((h << 4) + digit) as int == h as int * 16 + digit as int
  {}

  // ----- the operations as the code writes them, and the numbers they give -----

  /** The number a C word holds. */
  function Value(x: bv32): nat { x as int }

  lemma Bounds(x: bv32)
    ensures x as int < 0x1000 <==> x < 0x1000
    ensures x as int <= 0x10FFFF <==> x < 0x110000
    ensures x as int < 0x20 <==> x < 0x20
    ensures x as int < 0x10 <==> x < 0x10
    ensures x as int < 0x08 <==> x < 0x08
    ensures x as int < 0x80 <==> x < 0x80
  {}

  lemma SurrogateBounds(x: bv32)
    ensures 0xD800 <= x as int <= 0xDBFF <==> 0xD800 <= x <= 0xDBFF
    ensures 0xDC00 <= x as int <= 0xDFFF <==> 0xDC00 <= x <= 0xDFFF
  {}

  lemma DigitBound(digit: bv32)
    ensures digit as int < 16 <==> digit < 16
  {}

  /** A hexadecimal digit as a C word. */
  function Digit(d: nat): (x: bv32)
    requires d < 16
    ensures Value(x) == d && x < 16
  {
    if d == 0 then 0
    else
      DigitBound(1 + Digit(d - 1));
      1 + Digit(d - 1)
  }

  /** What `i` digits can make. */
  predicate HasDigits(h: bv32, i: nat) {
    match i
    case 0 => h == 0
    case 1 => h < 0x10
    case 2 => h < 0x100
    case 3 => h < 0x1000
    case _ => h < 0x10000
  }

  /** `h = h << 4` */
  function ShiftNibble(h: bv32): bv32 { h << 4 }

  /** `h += digit`, behind the shift of the digits `before`. */
  function AddDigit(ghost before: bv32, h: bv32, digit: bv32, ghost i: nat): (x: bv32)
    requires i < 4 && HasDigits(before, i) && h == ShiftNibble(before) && digit < 16
    ensures Value(x) == Value(before) * 16 + Value(digit)
    ensures HasDigits(x, i + 1)
  {
    hide Value;
    AddedValue(before, digit);
    h + digit
  }

  lemma AddedValue(before: bv32, digit: bv32)
    requires before < 0x1000 && digit < 16
    ensures Value((before << 4) + digit) == Value(before) * 16 + Value(digit)
  {
    HexShift(before, digit);
  }

  lemma NoDigits()
    ensures HasDigits(0, 0) && ShiftNibble(0) == 0 && Value(0) == 0
  {}

  predicate High(x: bv32)
    ensures High(x) <==> 0xD800 <= Value(x) <= 0xDBFF
  {
    SurrogateBounds(x);
    0xD800 <= x <= 0xDBFF
  }

  predicate Low(x: bv32)
    ensures Low(x) <==> 0xDC00 <= Value(x) <= 0xDFFF
  {
    SurrogateBounds(x);
    0xDC00 <= x <= 0xDFFF
  }

  /** The code point of a surrogate pair. */
  function Pair(high: bv32, low: bv32): (x: bv32)
    requires High(high) && Low(low)
    ensures Value(x) == 0x10000 + (Value(high) - 0xD800) * 1024 + (Value(low) - 0xDC00)
  {
    SurrogatePair(high, low);
    0x10000 + (((high & 0x3FF) << 10) | (low & 0x3FF))
  }

  /** `codepoint >>= 6` */
  function ShiftPoint(x: bv32): (y: bv32)
    requires Value(x) <= 0x10FFFF
    ensures Value(y) == Value(x) / 64
  {
    Bounds(x);
    ShiftSix(x);
    x >> 6
  }

  /** A continuation byte. */
  function Continuation(x: bv32): (b: byte)
    requires Value(x) <= 0x10FFFF
    ensures b == 0x80 + Value(x) % 64
  {
    Bounds(x);
    ContinuationByte(x);
    ((x | 0x80) & 0xBF) as byte
  }

  /** The first byte of two, three or four. */
  function Leading(x: bv32, length: nat): (b: byte)
    requires 2 <= length <= 4 && Value(x) < if length == 2 then 0x20 else if length == 3 then 0x10 else 0x08
    ensures b == Value(x) + if length == 2 then 0xC0 else if length == 3 then 0xE0 else 0xF0
  {
    Bounds(x);
    FirstByte(x);
    if length == 2 then ((x | 0xC0) & 0xFF) as byte
    else if length == 3 then ((x | 0xE0) & 0xFF) as byte
    else ((x | 0xF0) & 0xFF) as byte
  }

  /** The only byte. */
  function Single(x: bv32): (b: byte)
    requires Value(x) < 0x80
    ensures b == Value(x)
  {
    Bounds(x);
    FirstByte(x);
    (x & 0x7F) as byte
  }
}
