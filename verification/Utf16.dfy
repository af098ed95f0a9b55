/** utf16_literal_to_utf8: a `\uXXXX` escape, or a surrogate pair of them, to UTF-8. The
    specification is arithmetic; the code works on the C words of module Bits. */
module Utf16 {
  import opened Bytes
  import Bits

  predicate IsHex(b: byte) { 48 <= b <= 57 || 65 <= b <= 70 || 97 <= b <= 102 }

  function HexValue(b: byte): (v: nat)
    requires IsHex(b)
    ensures v < 16
  {
    if b <= 57 then b - 48 else if b <= 70 then b - 55 else b - 87
  }

  predicate IsHex4(s: bytes) { |s| == 4 && IsHex(s[0]) && IsHex(s[1]) && IsHex(s[2]) && IsHex(s[3]) }

  /** The number four hexadecimal digits denote; 0 when one of the four is not a digit. */
  function Hex4(s: bytes): (v: nat)
    requires |s| == 4
    ensures v < 0x10000
  {
    if IsHex4(s) then
      HexValue(s[0]) * 4096 + HexValue(s[1]) * 256 + HexValue(s[2]) * 16 + HexValue(s[3])
    else 0
  }

  /** UTF-8 of a code point (section 3 of RFC 3629). */
  function Utf8(cp: nat): (s: bytes)
    requires cp <= 0x10FFFF
    ensures 1 <= |s| <= 4
    ensures cp < 0x10000 ==> |s| <= 3
  {
    if cp < 0x80 then [cp]
    else if cp < 0x800 then [0xC0 + cp / 64, 0x80 + cp % 64]
    else if cp < 0x10000 then [0xE0 + cp / 4096, 0x80 + cp / 64 % 64, 0x80 + cp % 64]
    else [0xF0 + cp / 262144, 0x80 + cp / 4096 % 64, 0x80 + cp / 64 % 64, 0x80 + cp % 64]
  }

  predicate IsContinuation(b: byte) { 0x80 <= b < 0xC0 }

  /** The code point a UTF-8 sequence stands for; None for overlong forms, surrogates and
      everything else that section 3 of RFC 3629 rules out. */
  function DecodeUtf8(s: bytes): Option<nat> {
    if |s| == 1 && s[0] < 0x80 then Some(s[0])
    else if |s| == 2 && 0xC2 <= s[0] < 0xE0 && IsContinuation(s[1]) then
      Some((s[0] as int - 0xC0) * 64 + (s[1] - 0x80))
    else if |s| == 3 && 0xE0 <= s[0] < 0xF0 && IsContinuation(s[1]) && IsContinuation(s[2]) then
      var cp := (s[0] as int - 0xE0) * 4096 + (s[1] as int - 0x80) * 64 + (s[2] - 0x80);
      if cp < 0x800 || IsSurrogate(cp) then None else Some(cp)
    else if |s| == 4 && 0xF0 <= s[0] < 0xF5 && IsContinuation(s[1]) && IsContinuation(s[2]) && IsContinuation(s[3]) then
      var cp := (s[0] as int - 0xF0) * 262144 + (s[1] as int - 0x80) * 4096 + (s[2] as int - 0x80) * 64 + (s[3] - 0x80);
      if cp < 0x10000 || cp > 0x10FFFF then None else Some(cp)
    else None
  }

  predicate IsSurrogate(cp: nat) { 0xD800 <= cp <= 0xDFFF }
  predicate IsHighSurrogate(u: nat) { 0xD800 <= u <= 0xDBFF }
  predicate IsLowSurrogate(u: nat) { 0xDC00 <= u <= 0xDFFF }

  /** The code point of a surrogate pair (section 2.2 of RFC 2781). */
  function PairValue(high: nat, low: nat): (cp: nat)
    requires IsHighSurrogate(high) && IsLowSurrogate(low)
    ensures 0x10000 <= cp <= 0x10FFFF
  {
    0x10000 + (high - 0xD800) * 1024 + (low - 0xDC00)
  }

  /** And the pair of a code point: the two give each other back. */
  lemma PairHalves(high: nat, low: nat)
    requires IsHighSurrogate(high) && IsLowSurrogate(low)
    ensures var cp := PairValue(high, low);
      0xD800 + (cp - 0x10000) / 1024 == high && 0xDC00 + (cp - 0x10000) % 1024 == low
  {}

  /** The code point of the escape that starts at `c[p]`, none of it read at or past `end`,
      and the 6 or 12 input bytes it takes. */
  function ReadCodePoint(c: bytes, p: nat, end: nat): (r: Option<(nat, nat)>)
    requires p <= end <= |c|
    ensures r.Some? ==> r.value.0 <= 0x10FFFF && p + r.value.1 <= end
    ensures r.Some? ==> r.value.1 == if r.value.0 < 0x10000 then 6 else 12
  {
    if end - p < 6 then None
    else
      var first := Hex4(c[p + 2..p + 6]);
      if IsLowSurrogate(first) then None
      else if IsHighSurrogate(first) then
        if end - p < 12 || c[p + 6] != BACKSLASH || c[p + 7] != LETTER_U then None
        else
          var second := Hex4(c[p + 8..p + 12]);
          if !IsLowSurrogate(second) then None else Some((PairValue(first, second), 12))
      else Some((first, 6))
  }

  /** `length` input bytes stand for the bytes `utf8`. */
  datatype Literal = Literal(utf8: bytes, length: nat)

  function ReadLiteral(c: bytes, p: nat, end: nat): (r: Option<Literal>)
    requires p <= end <= |c|
    ensures r.Some? ==> 1 <= |r.value.utf8| <= 4 && p + r.value.length <= end
    ensures r.Some? ==> (r.value.length == 6 && |r.value.utf8| <= 3) || r.value.length == 12
  {
    match ReadCodePoint(c, p, end)
    case None => None
    case Some((cp, length)) => Some(Literal(Utf8(cp), length))
  }

  // ----- the standard's view -----

  /** Decoding the bytes made for a code point gives the code point back. */
  lemma Utf8RoundTrip(cp: nat)
    requires cp <= 0x10FFFF
    ensures DecodeUtf8(Utf8(cp)) == if 0xD800 <= cp <= 0xDFFF then None else Some(cp)
  {
    assert cp / 64 / 64 == cp / 4096;
    assert cp / 4096 / 64 == cp / 262144;
  }

  /** `\u` and four hexadecimal digits. */
  predicate IsEscape(s: bytes, unit: nat) {
    |s| == 6 && s[0] == BACKSLASH && s[1] == LETTER_U && IsHex4(s[2..6]) && Hex4(s[2..6]) == unit
  }

  /** How section 7 of RFC 8259 writes a code point as escapes. */
  predicate Escapes(s: bytes, cp: nat) {
    if cp < 0x10000 then IsEscape(s, cp)
    else
      |s| == 12 && cp <= 0x10FFFF
      && IsEscape(s[..6], 0xD800 + (cp - 0x10000) / 1024)
      && IsEscape(s[6..], 0xDC00 + (cp - 0x10000) % 1024)
  }

  lemma EscapedUnit(c: bytes, p: nat, s: bytes, unit: nat)
    requires At(c, p, s) && IsEscape(s, unit)
    ensures Hex4(c[p + 2..p + 6]) == unit
    ensures c[p] == BACKSLASH && c[p + 1] == LETTER_U
  {}

  lemma EscapedCodePoint(c: bytes, p: nat, end: nat, s: bytes, cp: nat)
    requires p <= end <= |c|
    requires At(c, p, s) && p + |s| <= end
    requires Escapes(s, cp) && !IsSurrogate(cp)
    ensures ReadLiteral(c, p, end) == Some(Literal(Utf8(cp), |s|))
    ensures DecodeUtf8(ReadLiteral(c, p, end).value.utf8) == Some(cp)
  {
    if cp < 0x10000 {
      EscapedUnit(c, p, s, cp);
    } else {
      var high, low := 0xD800 + (cp - 0x10000) / 1024, 0xDC00 + (cp - 0x10000) % 1024;
      assert s == s[..6] + s[6..];
      AtConcat(c, p, s[..6], s[6..]);
      EscapedUnit(c, p, s[..6], high);
      EscapedUnit(c, p + 6, s[6..], low);
      assert PairValue(high, low) == cp;
    }
    Utf8RoundTrip(cp);
  }

  /** `b` is the hexadecimal digit of value `v`, in either case. */
  predicate DigitOf(b: byte, v: nat)
    requires v < 16
  {
    b == "0123456789ABCDEF"[v] as int || b == "0123456789abcdef"[v] as int
  }

  /** The 22 digits, and what each is worth. */
  lemma HexDigits(b: byte)
    ensures IsHex(b) <==> exists v: nat | v < 16 :: DigitOf(b, v)
    ensures IsHex(b) ==> forall v: nat | v < 16 :: DigitOf(b, v) <==> HexValue(b) == v
  {
    forall v: nat | v < 16 && DigitOf(b, v) ensures IsHex(b) && HexValue(b) == v {
      DigitWorth(b, v);
    }
    if IsHex(b) {
      assert DigitOf(b, HexValue(b));
    }
  }

  lemma DigitWorth(b: byte, v: nat)
    requires v < 16 && DigitOf(b, v)
    ensures IsHex(b) && HexValue(b) == v
  {}

  /** Four digits, in either case each, denote the number they spell. */
  lemma FourDigits(s: bytes, unit: nat)
    requires |s| == 4 && unit < 0x10000
    requires DigitOf(s[0], unit / 4096) && DigitOf(s[1], unit / 256 % 16)
    requires DigitOf(s[2], unit / 16 % 16) && DigitOf(s[3], unit % 16)
    ensures IsHex4(s) && Hex4(s) == unit
  {
    hide DigitOf, HexValue;
    FourNibbles(unit);
    DigitWorth(s[0], unit / 4096);
    DigitWorth(s[1], unit / 256 % 16);
    DigitWorth(s[2], unit / 16 % 16);
    DigitWorth(s[3], unit % 16);
  }

  /** And four bytes that are not all digits denote 0. */
  lemma NotDigits(s: bytes, i: nat)
    requires |s| == 4 && i < 4 && forall v: nat | v < 16 :: !DigitOf(s[i], v)
    ensures Hex4(s) == 0
  {
    hide DigitOf, IsHex;
    HexDigits(s[i]);
  }

  lemma FourNibbles(n: nat)
    requires n < 0x10000
    ensures n / 4096 < 16 && n == n / 4096 * 4096 + n / 256 % 16 * 256 + n / 16 % 16 * 16 + n % 16
  {
    var a, b := n / 16, n / 256;
    assert b == a / 16 && n / 4096 == b / 16;
    assert n == 16 * a + n % 16 && a == 16 * b + a % 16 && b == 16 * (b / 16) + b % 16;
  }

  // ----- the code -----

  function FirstByteMark(length: nat): byte {
    if length == 2 then 0xC0 else if length == 3 then 0xE0 else if length == 4 then 0xF0 else 0
  }

  function FirstByteRange(length: nat): nat {
    if length == 1 then 0x80 else if length == 2 then 0x20 else if length == 3 then 0x10 else 8
  }

  /** parse_hex4 */
  method ParseHex4(c: bytes, p: nat) returns (h: bv32)
    requires p + 4 <= |c|
    ensures Bits.Value(h) == Hex4(c[p..p + 4])
  {
    hide Bits.AddDigit, Bits.ShiftNibble, Bits.HasDigits, Bits.Digit, Bits.Value;
    h := 0;
    ghost var s := c[p..p + 4];
    ghost var read: bv32 := 0;
    Bits.NoDigits();
    for i := 0 to 4
      invariant forall k :: 0 <= k < i ==> IsHex(s[k])
      invariant Bits.HasDigits(read, i) && Bits.Value(read) == HexPrefix(s, i)
      invariant h == if i < 4 then Bits.ShiftNibble(read) else read
    {
      assert c[p + i] == s[i];
      if 48 <= c[p + i] <= 57 {
        h := Bits.AddDigit(read, h, Bits.Digit(c[p + i] - 48), i);
      } else if 65 <= c[p + i] <= 70 {
        h := Bits.AddDigit(read, h, Bits.Digit(10 + c[p + i] - 65), i);
      } else if 97 <= c[p + i] <= 102 {
        h := Bits.AddDigit(read, h, Bits.Digit(10 + c[p + i] - 97), i);
      } else {
        Bits.NoDigits();
        return 0;
      }
      read := h;
      if i < 3 {
        h := Bits.ShiftNibble(h);
      }
    }
    assert HexPrefix(s, 2) == HexValue(s[0]) * 16 + HexValue(s[1]);
  }

  ghost function HexPrefix(s: bytes, i: nat): nat
    requires i <= |s|
    requires forall k :: 0 <= k < i ==> IsHex(s[k])
  {
    if i == 0 then 0 else HexPrefix(s, i - 1) * 16 + HexValue(s[i - 1])
  }

  /** The decoding half of utf16_literal_to_utf8; length 0 means a bad literal. */
  method LiteralCodePoint(c: bytes, p: nat, end: nat) returns (codepoint: bv32, sequenceLength: nat)
    requires p <= end <= |c|
    ensures match ReadCodePoint(c, p, end)
            case None => sequenceLength == 0
            case Some((cp, length)) => Bits.Value(codepoint) == cp && sequenceLength == length
  {
    hide Bits.High, Bits.Low, Bits.Pair, Bits.Value, Hex4;
    codepoint, sequenceLength := 0, 0;
    if end - p < 6 {
      return;
    }
    var firstCode := ParseHex4(c, p + 2);
    if Bits.Low(firstCode) {
      return;
    }
    if Bits.High(firstCode) {
      if end - (p + 6) < 6 || c[p + 6] != BACKSLASH || c[p + 7] != LETTER_U {
        return;
      }
      var secondCode := ParseHex4(c, p + 8);
      if !Bits.Low(secondCode) {
        return;
      }
      sequenceLength := 12;
      codepoint := Bits.Pair(firstCode, secondCode);
    } else {
      sequenceLength := 6;
      codepoint := firstCode;
    }
  }

  /** utf16_literal_to_utf8. `output` is written from `pos` on; 0 means a bad literal. */
  method Utf16LiteralToUtf8(c: bytes, p: nat, end: nat, output: array<byte>, pos: nat)
      returns (sequenceLength: nat, newPos: nat)
    requires p <= end <= |c|
    requires ReadLiteral(c, p, end).Some? ==> pos + |ReadLiteral(c, p, end).value.utf8| <= output.Length
    modifies output
    ensures match ReadLiteral(c, p, end)
            case None => sequenceLength == 0 && newPos == pos && output[..] == old(output[..])
            case Some(l) =>
              && sequenceLength == l.length && newPos == pos + |l.utf8| <= output.Length
              && output[..newPos] == old(output[..])[..pos] + l.utf8
  {
    var codepoint;
    newPos := pos;
    codepoint, sequenceLength := LiteralCodePoint(c, p, end);
    if sequenceLength != 0 {
      var written := EncodeUtf8(codepoint, output, pos);
      newPos := pos + written;
    }
  }

  /** `utf8` is the sequence of `length` bytes whose bits are those of `cp`. */
  ghost predicate Spells(utf8: bytes, cp: nat, length: nat) {
    && 1 <= length <= 4 && |utf8| == length
    && (forall k :: 1 <= k < length ==> utf8[k] == 0x80 + Shifted(cp, length - 1 - k) % 64)
    && Shifted(cp, length - 1) < FirstByteRange(length)
    && utf8[0] == FirstByteMark(length) + Shifted(cp, length - 1)
  }

  /** `n` after `k` shifts by six bits. */
  ghost function Shifted(n: nat, k: nat): nat {
    if k == 0 then n else Shifted(n, k - 1) / 64
  }

  lemma Utf8Spells(cp: nat)
    requires cp <= 0x10FFFF
    ensures Spells(Utf8(cp), cp, |Utf8(cp)|)
  {
    assert cp / 64 / 64 == cp / 4096 && cp / 4096 / 64 == cp / 262144;
    assert Shifted(cp, 1) == cp / 64;
    assert Shifted(cp, 2) == Shifted(cp, 1) / 64;
    assert Shifted(cp, 3) == Shifted(cp, 2) / 64;
  }

  /** The encoding half of utf16_literal_to_utf8: the length, then the bytes. */
  method EncodeUtf8(cp: bv32, output: array<byte>, pos: nat) returns (length: nat)
    requires Bits.Value(cp) <= 0x10FFFF
    requires pos + |Utf8(Bits.Value(cp))| <= output.Length
    modifies output
    ensures length == |Utf8(Bits.Value(cp))|
    ensures output[..pos + length] == old(output[..])[..pos] + Utf8(Bits.Value(cp))
  {
    hide Bits.Value;
    if Bits.Value(cp) < 0x80 {
      length := 1;
    } else if Bits.Value(cp) < 0x800 {
      length := 2;
    } else if Bits.Value(cp) < 0x10000 {
      length := 3;
    } else {
      length := 4;
    }
    Utf8Spells(Bits.Value(cp));
    EncodeBytes(cp, length, output, pos, Utf8(Bits.Value(cp)));
  }

  /** Continuation bytes last to first, then the first byte with its mark. */
  method EncodeBytes(cp: bv32, length: nat, output: array<byte>, pos: nat, ghost utf8: bytes)
    requires Bits.Value(cp) <= 0x10FFFF && Spells(utf8, Bits.Value(cp), length)
    requires pos + length <= output.Length
    modifies output
    ensures output[..pos + length] == old(output[..])[..pos] + utf8
  {
    hide Bits.Continuation, Bits.ShiftPoint, Bits.Leading, Bits.Single, Bits.Value;
    var codepoint := cp;
    var position := length - 1;
    while position > 0
      invariant 0 <= position < length
      invariant Bits.Value(codepoint) == Shifted(Bits.Value(cp), length - 1 - position) <= 0x10FFFF
      invariant forall k :: position < k < length ==> output[pos + k] == utf8[k]
      invariant output[..pos] == old(output[..])[..pos]
    {
      output[pos + position] := Bits.Continuation(codepoint);
      codepoint := Bits.ShiftPoint(codepoint);
      position := position - 1;
    }
    output[pos] := if length > 1 then Bits.Leading(codepoint, length) else Bits.Single(codepoint);
    assert output[pos..pos + length] == utf8;
  }
}
