/** Decimal numerals: what `%d` prints and what `strtod` reads from the characters
    that parse_number scans. */
module Decimals {
  import opened Bytes

  predicate IsDigit(b: byte) { 48 <= b <= 57 }

  predicate AllDigits(s: bytes) { forall i :: 0 <= i < |s| ==> IsDigit(s[i]) }

  function DigitsValue(s: bytes): nat
    requires AllDigits(s)
  {
    if s == [] then 0 else DigitsValue(s[..|s| - 1]) * 10 + (s[|s| - 1] - 48)
  }

  /** The digits of `n`, as `%d` prints a non-negative number. */
  function Digits(n: nat): (s: bytes)
    ensures s != [] && AllDigits(s)
    ensures DigitsValue(s) == n
    ensures n >= 10 ==> s[0] != 48
    ensures n < 10 ==> |s| == 1
  {
    if n < 10 then [48 + n] else Digits(n / 10) + [48 + n % 10]
  }

  /** `%d` */
  function IntText(n: int): bytes {
    if n < 0 then [MINUS] + Digits(-n) else Digits(n)
  }

  /** The end of the digit run of `s` starting at `i`. */
  function DigitRun(s: bytes, i: nat): (j: nat)
    requires i <= |s|
    ensures i <= j <= |s| && AllDigits(s[i..j])
    ensures j < |s| ==> !IsDigit(s[j])
    decreases |s| - i
  {
    if i < |s| && IsDigit(s[i]) then
      var j := DigitRun(s, i + 1);
      assert s[i..j] == [s[i]] + s[i + 1..j];
      j
    else i
  }

  lemma {:induction false} DigitRunIs(s: bytes, i: nat, j: nat)
    requires i <= j <= |s|
    requires forall k :: i <= k < j ==> IsDigit(s[k])
    requires j < |s| ==> !IsDigit(s[j])
    ensures DigitRun(s, i) == j
    decreases j - i
  {}

  /** The characters that parse_number copies out for `strtod`. */
  predicate IsNumberChar(b: byte) {
    IsDigit(b) || b == PLUS || b == MINUS || b == POINT || b == 101 || b == 69
  }

  function NumberRun(c: bytes, i: nat): (j: nat)
    requires i <= |c|
    ensures i <= j <= |c|
    ensures forall k :: i <= k < j ==> IsNumberChar(c[k])
    ensures j < |c| ==> !IsNumberChar(c[j])
    decreases |c| - i
  {
    if i < |c| && IsNumberChar(c[i]) then NumberRun(c, i + 1) else i
  }

  lemma {:induction false} NumberRunIs(c: bytes, i: nat, j: nat)
    requires i <= j <= |c|
    requires forall k :: i <= k < j ==> IsNumberChar(c[k])
    requires j < |c| ==> !IsNumberChar(c[j])
    ensures NumberRun(c, i) == j
    decreases j - i
  {}

  /** `used` characters denote exactly `mantissa * 10^exponent`; `used == 0` means no number. */
  datatype Conversion = Conversion(used: nat, mantissa: int, exponent: int)

  predicate IsSign(s: bytes, i: nat) { i < |s| && (s[i] == PLUS || s[i] == MINUS) }

  function SignEnd(s: bytes, i: nat): (j: nat)
    requires i <= |s|
    ensures i <= j <= |s|
  {
    if IsSign(s, i) then i + 1 else i
  }

  function Signed(s: bytes, i: nat, n: nat): int {
    if i < |s| && s[i] == MINUS then -(n as int) else n
  }

  /** The end of the fraction part that may start at `i`, point included. */
  function FractionEnd(s: bytes, i: nat): (j: nat)
    requires i <= |s|
    ensures i <= j <= |s| && (i < j ==> AllDigits(s[i + 1..j]))
  {
    if i < |s| && s[i] == POINT then DigitRun(s, i + 1) else i
  }

  /** The end and the value of the exponent part that may start at `i`; a letter without
      digits behind it is not one. */
  function ExponentPart(s: bytes, i: nat): (r: (nat, int))
    requires i <= |s|
    ensures i <= r.0 <= |s|
  {
    if i < |s| && (s[i] == 101 || s[i] == 69) then
      var start := SignEnd(s, i + 1);
      var end := DigitRun(s, start);
      if end == start then (i, 0) else (end, Signed(s, i + 1, DigitsValue(s[start..end])))
    else (i, 0)
  }

  /** C's `strtod` in the "C" locale on a string of number characters (which rules out
      hexadecimal, infinities and NaN): the longest prefix that is a decimal numeral,
      with its exact value. */
  function Strtod(s: bytes): (r: Conversion)
    ensures r.used <= |s|
  {
    var start := SignEnd(s, 0);
    var whole := DigitRun(s, start);
    var frac := FractionEnd(s, whole);
    var fraction := if frac > whole then s[whole + 1..frac] else [];
    if whole == start && fraction == [] then Conversion(0, 0, 0)
    else
      AllDigitsConcat(s[start..whole], fraction);
      var (end, exponent) := ExponentPart(s, frac);
      Conversion(end, Signed(s, 0, DigitsValue(s[start..whole] + fraction)), exponent - |fraction|)
  }

  lemma AllDigitsConcat(s: bytes, t: bytes)
    requires AllDigits(s) && AllDigits(t)
    ensures AllDigits(s + t)
  {}

  /** 10^n */
  function Power10(n: nat): (p: nat)
    ensures p > 0
  {
    if n == 0 then 1 else 10 * Power10(n - 1)
  }

  lemma {:induction false} DigitsLength(n: nat, k: nat)
    requires k > 0 && n < Power10(k)
    ensures |Digits(n)| <= k
  {
    if n >= 10 {
      assert k > 1;
      DigitsLength(n / 10, k - 1);
    }
  }

  function Saturate(n: int): int {
    if n > INT_MAX then INT_MAX else if n < INT_MIN then INT_MIN else n
  }

  /** The `valueint` of a number: truncated towards zero and saturated. */
  function ValueInt(mantissa: int, exponent: int): (n: int)
    ensures IsInt32(n)
    ensures exponent == 0 && IsInt32(mantissa) ==> n == mantissa
  {
    if exponent >= 0 then Saturate(mantissa * Power10(exponent))
    else if mantissa < 0 then Saturate(-(-mantissa / Power10(-exponent)))
    else Saturate(mantissa / Power10(-exponent))
  }

  /** `q` is `m / d` without its fraction, or `limit` when that is more. */
  predicate CutTo(m: int, d: int, q: int, limit: int) {
    if m >= (limit + 1) * d then q == limit else q * d <= m < (q + 1) * d
  }

  /** A number that a C int cannot hold becomes the end of the range on its side; any other is cut
      towards zero. */
  lemma FractionCut(m: nat, e: nat)
    requires e > 0
    ensures CutTo(m, Power10(e), ValueInt(m, -(e as int)), INT_MAX)
    ensures CutTo(m, Power10(e), -ValueInt(-(m as int), -(e as int)), INT_MAX + 1)
  {
    hide CutTo, Power10;
    Cut(m, e);
    CutDown(m, Power10(e), INT_MAX);
    CutDown(m, Power10(e), INT_MAX + 1);
  }

  lemma Cut(m: nat, e: nat)
    requires e > 0
    ensures var q := m / Power10(e);
      && ValueInt(m, -(e as int)) == (if q > INT_MAX then INT_MAX else q)
      && -ValueInt(-(m as int), -(e as int)) == (if q > INT_MAX + 1 then INT_MAX + 1 else q)
  {
    hide Power10, ValueInt;
    var d := Power10(e);
    Divided(m, d);
    Fraction(m, -(e as int));
    Fraction(-(m as int), -(e as int));
  }

  lemma Fraction(m: int, e: int)
    requires e < 0
    ensures ValueInt(m, e)
         == if m < 0 then Saturate(-(-m / Power10(-e))) else Saturate(m / Power10(-e))
  {
    hide Power10, Saturate;
  }

  /** And one without a fraction, of either sign, saturates on its side. */
  lemma WholeCut(m: int, e: nat, n: int)
    requires n == m * Power10(e)
    ensures ValueInt(m, e) == if n > INT_MAX then INT_MAX else if n < INT_MIN then INT_MIN else n
  {
    hide Power10;
  }

  lemma CutDown(m: nat, d: nat, limit: nat)
    requires d > 0
    ensures CutTo(m, d, if m / d > limit then limit else m / d, limit)
  {
    Divided(m, d);
    assert m >= (limit + 1) * d <==> m / d >= limit + 1;
  }

  lemma Divided(m: nat, d: nat)
    requires d > 0
    ensures var q := m / d; 0 <= q && q * d <= m < (q + 1) * d
    ensures forall k: nat :: m >= k * d <==> m / d >= k
  {
    var q := m / d;
    assert m == q * d + m % d && 0 <= m % d < d;
    forall k: nat ensures m >= k * d <==> q >= k {
      if q >= k {
        Scaled(k, q, d);
      } else {
        Scaled(q + 1, k, d);
      }
    }
  }

  lemma Scaled(a: nat, b: nat, d: nat)
    requires a <= b
    ensures a * d <= b * d
  {
    assert b * d - a * d == (b - a) * d;
  }

  /** The ten digits, and what each is worth. */
  lemma DecimalDigits(b: byte)
    ensures IsDigit(b) <==> b as char in "0123456789"
    ensures IsDigit(b) ==> DigitsValue([b]) < 10 && "0123456789"[DigitsValue([b])] as int == b
  {
    assert [b][..0] == [];
    if IsDigit(b) {
      assert DigitsValue([b]) == b - 48 && "0123456789"[b - 48] as int == b;
    }
  }
}
