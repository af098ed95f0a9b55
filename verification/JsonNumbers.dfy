/** Numbers: parse_number reads exactly the numerals of the grammar, as far as they go. */
module JsonNumbers {
  import opened Bytes
  import opened Decimals
  import opened JsonReader
  import opened JsonSyntax

  lemma DigitRunOf(t: bytes, i: nat, digits: bytes)
    requires At(t, i, digits) && AllDigits(digits)
    requires i + |digits| < |t| ==> !IsDigit(t[i + |digits|])
    ensures DigitRun(t, i) == i + |digits|
    ensures t[i..i + |digits|] == digits
  {
    AtBytes(t, i, digits);
    forall k | i <= k < i + |digits| ensures IsDigit(t[k]) {
      assert digits[k - i] == t[k];
    }
    DigitRunIs(t, i, i + |digits|);
  }

  // ----- where the parts of a numeral lie -----

  function SignText(n: Numeral): bytes { if n.negative then [MINUS] else [] }
  function PointText(n: Numeral): bytes { if n.point then [POINT] else [] }

  lemma NumeralParts(t: bytes, n: Numeral)
    requires At(t, 0, RenderNumeral(n))
    ensures var a := |SignText(n)|;
      var b := a + |n.whole|;
      var d := b + |PointText(n)|;
      var f := d + |n.fraction|;
      && At(t, 0, SignText(n)) && At(t, a, n.whole) && At(t, b, PointText(n)) && At(t, d, n.fraction)
      && At(t, f, RenderExponent(n.exponent)) && f + |RenderExponent(n.exponent)| == |RenderNumeral(n)|
  {
    hide At, RenderExponent;
    var sign, point := SignText(n), PointText(n);
    AtConcat(t, 0, sign + n.whole + point + n.fraction, RenderExponent(n.exponent));
    AtConcat(t, 0, sign + n.whole + point, n.fraction);
    AtConcat(t, 0, sign + n.whole, point);
    AtConcat(t, 0, sign, n.whole);
  }

  lemma ExponentStarts(t: bytes, f: nat, e: Option<Exponent>)
    requires e.Some? && GoodExponent(e.value) && At(t, f, RenderExponent(e))
    ensures f < |t| && (t[f] == 101 || t[f] == 69)
  {
    AtFirst(t, f, RenderExponent(e));
  }

  /** Where the parts of an exponent lie. */
  lemma ExponentParts(t: bytes, f: nat, x: Exponent)
    requires GoodExponent(x) && At(t, f, RenderExponent(Some(x)))
    ensures var start := f + 1 + |x.sign|;
      && f < |t| && t[f] == x.letter && At(t, start, x.digits) && start < |t| && IsDigit(t[start])
      && SignEnd(t, f + 1) == start && (x.sign == [MINUS] <==> t[f + 1] == MINUS)
  {
    hide At;
    var start := f + 1 + |x.sign|;
    AtConcat(t, f, [x.letter] + x.sign, x.digits);
    AtConcat(t, f, [x.letter], x.sign);
    AtFirst(t, f, [x.letter]);
    AtFirst(t, start, x.digits);
    if x.sign != [] {
      AtFirst(t, f + 1, x.sign);
    }
    assert IsDigit(x.digits[0]);
  }

  lemma ExponentReads(t: bytes, f: nat, e: Option<Exponent>)
    requires At(t, f, RenderExponent(e))
    requires e.Some? ==> GoodExponent(e.value)
    requires var end := f + |RenderExponent(e)|;
      if e.Some? then end < |t| ==> !IsDigit(t[end]) else !ExponentAt(t, f)
    ensures ExponentPart(t, f) == (f + |RenderExponent(e)|, Power(e))
  {
    hide At, DigitRun, DigitsValue, AllDigits, SignEnd;
    if e.Some? {
      ExponentParts(t, f, e.value);
      DigitRunOf(t, f + 1 + |e.value.sign|, e.value.digits);
    } else {
      AtNothing(t, f);
      NoExponent(t, f);
    }
  }

  lemma NoExponent(t: bytes, f: nat)
    requires f <= |t|
    ensures ExponentPart(t, f).0 == f <==> !ExponentAt(t, f)
    ensures ExponentPart(t, f).0 == f ==> ExponentPart(t, f).1 == 0
  {
    hide DigitsValue;
  }

  lemma FractionReads(t: bytes, b: nat, n: Numeral)
    requires GoodNumeral(n) && At(t, b, PointText(n)) && At(t, b + |PointText(n)|, n.fraction)
    requires var f := b + |PointText(n)| + |n.fraction|; f < |t| ==> !IsDigit(t[f]) && (n.point || t[f] != POINT)
    ensures var f := b + |PointText(n)| + |n.fraction|;
      && FractionEnd(t, b) == f && n.fraction == (if f > b then t[b + 1..f] else [])
      && (b < |t| ==> !IsDigit(t[b]))
  {
    hide DigitRun, DigitsValue;
    if n.point {
      AtByte(t, b, POINT);
      DigitRunOf(t, b + 1, n.fraction);
    } else {
      AtNothing(t, b);
    }
  }

  lemma SignReads(t: bytes, n: Numeral)
    requires GoodNumeral(n) && At(t, 0, SignText(n)) && At(t, |SignText(n)|, n.whole)
    ensures SignEnd(t, 0) == |SignText(n)| && (n.negative <==> t != [] && t[0] == MINUS)
    ensures n.negative || (t != [] && IsDigit(t[0]))
  {
    if n.negative {
      AtByte(t, 0, MINUS);
    } else {
      AtFirst(t, 0, n.whole);
      assert IsDigit(n.whole[0]);
    }
  }

  /** `strtod` takes just the numeral when what follows does not continue it. */
  lemma StrtodReads(t: bytes, n: Numeral)
    requires GoodNumeral(n) && At(t, 0, RenderNumeral(n)) && NumeralEnds(t, n, |RenderNumeral(n)|)
    ensures Strtod(t) == Conversion(|RenderNumeral(n)|, NumeralMantissa(n), NumeralExponent(n))
  {
    hide DigitsValue, DigitRun, SignEnd, RenderNumeral, FractionEnd, ExponentPart, At, GoodExponent, RenderExponent,
      AllDigits, Power, ExponentAt;
    NumeralParts(t, n);
    SignReads(t, n);
    var a := |SignText(n)|;
    var b := a + |n.whole|;
    var f := b + |PointText(n)| + |n.fraction|;
    if n.exponent.Some? {
      ExponentStarts(t, f, n.exponent);
    } else {
      NoExponentText();
    }
    FractionReads(t, b, n);
    DigitRunOf(t, a, n.whole);
    ExponentReads(t, f, n.exponent);
  }

  lemma NoExponentText()
    ensures RenderExponent(None) == []
  {}

  lemma NumeralChars(n: Numeral)
    requires GoodNumeral(n)
    ensures forall k :: 0 <= k < |RenderNumeral(n)| ==> IsNumberChar(RenderNumeral(n)[k])
    ensures RenderNumeral(n) != []
    ensures RenderNumeral(n)[0] == MINUS || IsDigit(RenderNumeral(n)[0])
  {}

  lemma {:induction false} NumberRunCovers(c: bytes, i: nat, j: nat)
    requires i <= j <= |c| && forall k :: i <= k < j ==> IsNumberChar(c[k])
    ensures j <= NumberRun(c, i)
    decreases j - i
  {
    if i < j {
      NumberRunCovers(c, i + 1, j);
    }
  }

  /** The characters copied out are followed by none that a numeral could go on with. */
  lemma EndsInRun(c: bytes, off: nat, n: Numeral, k: nat)
    requires off <= |c| && off + k <= NumberRun(c, off)
    ensures NumeralEnds(c[off..NumberRun(c, off)], n, k) <==> NumeralEnds(c, n, off + k)
  {
    var s := c[off..NumberRun(c, off)];
    assert forall i :: 0 <= i < |s| ==> s[i] == c[off + i];
    assert ExponentAt(s, k) <==> ExponentAt(c, off + k);
  }

  /** parse_number reads a numeral of the grammar that is not continued as what it means. */
  lemma ReadsNumeral(c: bytes, off: nat, depth: nat, n: Numeral)
    requires GoodNumeral(n) && At(c, off, RenderNumeral(n)) && NumeralEnds(c, n, off + |RenderNumeral(n)|)
    ensures ReadNumber(c, off, depth) == Parsed(Meaning(NumberSyntax(n)), off + |RenderNumeral(n)|)
  {
    hide Strtod, RenderNumeral, NumeralMantissa, NumeralExponent, GoodNumeral, NumeralEnds;
    var t := RenderNumeral(n);
    AtBytes(c, off, t);
    NumeralChars(n);
    var end := off + |t|;
    forall k | off <= k < end ensures IsNumberChar(c[k]) {
      assert t[k - off] == c[k];
    }
    NumberRunCovers(c, off, end);
    var s := c[off..NumberRun(c, off)];
    assert s[0..|t|] == c[off..end];
    EndsInRun(c, off, n, |t|);
    StrtodReads(s, n);
  }

  // ----- and nothing else -----

  lemma SoundExponent(s: bytes, i: nat) returns (e: Option<Exponent>)
    requires i <= |s|
    ensures e.Some? ==> GoodExponent(e.value)
    ensures var (end, power) := ExponentPart(s, i);
      && i <= end && RenderExponent(e) == s[i..end] && power == Power(e)
      && (if e.Some? then end < |s| ==> !IsDigit(s[end]) else !ExponentAt(s, end))
  {
    hide DigitRun, DigitsValue, ExponentAt;
    var (end, power) := ExponentPart(s, i);
    NoExponent(s, i);
    if end == i {
      e := None;
    } else {
      var start := SignEnd(s, i + 1);
      e := Some(Exponent(s[i], s[i + 1..start], s[start..end]));
      assert s[i..end] == [s[i]] + s[i + 1..start] + s[start..end];
      if start > i + 1 {
        assert s[i + 1..start] == [s[i + 1]];
      }
    }
  }

  lemma SoundStrtod(s: bytes) returns (n: Numeral)
    requires s != [] && (s[0] == MINUS || IsDigit(s[0])) && Strtod(s).used > 0
    ensures GoodNumeral(n) && RenderNumeral(n) == s[..Strtod(s).used] && NumeralEnds(s, n, Strtod(s).used)
  {
    hide DigitsValue, ExponentPart, RenderExponent, GoodExponent, Power, ExponentAt;
    var start := SignEnd(s, 0);
    var w := DigitRun(s, start);
    var f := FractionEnd(s, w);
    var e := SoundExponent(s, f);
    var fraction := if f > w then s[w + 1..f] else [];
    n := Numeral(start == 1, s[start..w], f > w, fraction, e);
    AllDigitsConcat(n.whole, n.fraction);
    NumeralSplit(s, start, w, f, ExponentPart(s, f).0);
    NoExponentText();
    if e.None? {
      assert ExponentPart(s, f).0 == f;
    }
  }

  lemma NumeralSplit(s: bytes, start: nat, w: nat, f: nat, end: nat)
    requires start <= w <= f <= end <= |s| && (f > w ==> s[w] == POINT) && start <= 1 && (start == 1 ==> s[0] == MINUS)
    ensures s[..end] == (if start == 1 then [MINUS] else []) + s[start..w] + (if f > w then [POINT] else [])
                        + (if f > w then s[w + 1..f] else []) + s[f..end]
  {}

  /** Every number that is read is one of the grammar, and is not continued. */
  lemma SoundNumber(c: bytes, off: nat, depth: nat) returns (n: Numeral)
    requires off < |c| && (c[off] == MINUS || IsDigit(c[off])) && ReadNumber(c, off, depth).Parsed?
    ensures GoodNumeral(n) && At(c, off, RenderNumeral(n)) && NumeralEnds(c, n, off + |RenderNumeral(n)|)
    ensures ReadNumber(c, off, depth) == Parsed(Meaning(NumberSyntax(n)), off + |RenderNumeral(n)|)
  {
    hide Strtod, RenderNumeral, GoodNumeral, NumeralEnds, NumeralMantissa, NumeralExponent;
    var run := NumberRun(c, off);
    assert run > off;
    var s := c[off..run];
    assert s[0] == c[off];
    n := SoundStrtod(s);
    assert s[..Strtod(s).used] == c[off..off + Strtod(s).used];
    EndsInRun(c, off, n, |RenderNumeral(n)|);
    ReadsNumeral(c, off, depth, n);
  }
}
