/** Amounts of money as the text interface prints and reads them, in grosze. */
module Money {
  import opened Bytes
  import opened Decimals

  // ----- what an amount looks like -----

  /** `s` writes the amount `whole.cents`, the point being optional when there are no cents. */
  predicate IsMoney(s: bytes, whole: bytes, cents: bytes) {
    && whole != [] && AllDigits(whole) && AllDigits(cents) && |cents| <= 2
    && (s == whole + [POINT] + cents || (s == whole && cents == []))
  }

  function CentsValue(cents: bytes): (n: nat)
    requires AllDigits(cents) && |cents| <= 2
    ensures n < 100
  {
    match |cents|
    case 0 => 0
    case 1 => (cents[0] as int - 48) * 10
    case _ => (cents[0] as int - 48) * 10 + (cents[1] as int - 48)
  }

  function Grosze(whole: bytes, cents: bytes): nat
    requires AllDigits(whole) && AllDigits(cents) && |cents| <= 2
  {
    DigitsValue(whole) * 100 + CentsValue(cents)
  }

  // ----- what the parser accepts -----

  /** Where the whole part ends, if what follows it is a proper rest. */
  function Split(s: bytes): Option<(bytes, bytes)> {
    var w := DigitRun(s, 0);
    if w == 0 then None
    else if w == |s| then Some((s, []))
    else if s[w] == POINT && |s| <= w + 3 && AllDigits(s[w + 1..]) then Some((s[..w], s[w + 1..]))
    else None
  }

  function ParsedMoney(s: bytes): Option<nat> {
    match Split(s)
    case None => None
    case Some((whole, cents)) =>
      SplitIs(s);
      if Grosze(whole, cents) <= INT_MAX then Some(Grosze(whole, cents)) else None
  }

  lemma SplitIs(s: bytes)
    ensures Split(s).Some? ==> IsMoney(s, Split(s).value.0, Split(s).value.1)
  {}

  /** Exactly the texts of amounts up to INT_MAX are accepted, with their amount. */
  lemma MoneyIs(s: bytes, whole: bytes, cents: bytes)
    requires IsMoney(s, whole, cents)
    ensures ParsedMoney(s) == if Grosze(whole, cents) <= INT_MAX then Some(Grosze(whole, cents)) else None
  {
    DigitRunIs(s, 0, |whole|);
    if s != whole {
      assert s[..|whole|] == whole && s[|whole| + 1..] == cents;
    } else {
      assert cents == [];
    }
  }

  lemma MoneyOnly(s: bytes) returns (whole: bytes, cents: bytes)
    requires ParsedMoney(s).Some?
    ensures IsMoney(s, whole, cents) && ParsedMoney(s) == Some(Grosze(whole, cents)) && Grosze(whole, cents) <= INT_MAX
    ensures whole == s[..DigitRun(s, 0)]
  {
    SplitIs(s);
    whole, cents := Split(s).value.0, Split(s).value.1;
  }

  lemma DigitsValueSnoc(s: bytes, d: byte)
    requires AllDigits(s) && IsDigit(d)
    ensures AllDigits(s + [d]) && DigitsValue(s + [d]) == DigitsValue(s) * 10 + (d - 48)
  {}

  lemma {:induction false} DigitsValueGrows(s: bytes, i: nat)
    requires AllDigits(s) && i <= |s|
    ensures DigitsValue(s[..i]) <= DigitsValue(s)
  {
    if i < |s| {
      assert s[..|s| - 1][..i] == s[..i];
      DigitsValueGrows(s[..|s| - 1], i);
    } else {
      assert s[..i] == s;
    }
  }

  predicate IsLong(n: int) { -0x8000_0000_0000_0000 <= n < 0x8000_0000_0000_0000 }

  /** The whole part of parse_zl_to_gr: -1 when it is refused. */
  method ParseWhole(s: bytes) returns (zl: int, i: nat, seenDigit: bool)
    ensures seenDigit <==> i > 0
    ensures i <= |s| && AllDigits(s[..i])
    ensures zl == -1 ==> ParsedMoney(s) == None
    ensures zl != -1 ==> i == DigitRun(s, 0) && (i == |s| || s[i] == POINT)
    ensures zl != -1 ==> zl == DigitsValue(s[..i]) && zl <= 99_999_999
  {
    zl, i, seenDigit := 0, 0, false;
    while i < |s| && s[i] != POINT
      invariant seenDigit <==> i > 0
      invariant i <= |s| && AllDigits(s[..i]) && zl == DigitsValue(s[..i]) && zl <= 99_999_999
    {
      if s[i] < 48 || s[i] > 57 {
        DigitRunIs(s, 0, i);
        return -1, i, seenDigit;
      }
      assert IsLong(zl * 10 + 9);
      DigitsValueSnoc(s[..i], s[i]);
      assert s[..i] + [s[i]] == s[..i + 1];
      zl := zl * 10 + (s[i] as int - 48);
      seenDigit := true;
      i := i + 1;
      if zl > 99_999_999 {
        TooBig(s, i);
        return -1, i, seenDigit;
      }
    }
    DigitRunIs(s, 0, i);
  }

  lemma {:induction false} DigitRunCovers(s: bytes, k: nat, i: nat)
    requires k <= i <= |s| && forall j :: k <= j < i ==> IsDigit(s[j])
    ensures i <= DigitRun(s, k)
    decreases i - k
  {}

  lemma TooBig(s: bytes, i: nat)
    requires i <= |s| && AllDigits(s[..i]) && DigitsValue(s[..i]) > 99_999_999
    ensures ParsedMoney(s) == None
  {
    if ParsedMoney(s).Some? {
      var whole, cents := MoneyOnly(s);
      assert forall k :: 0 <= k < i ==> s[k] == s[..i][k];
      DigitRunCovers(s, 0, i);
      assert s[..i] == whole[..i];
      DigitsValueGrows(whole, i);
    }
  }

  /** What parse_zl_to_gr makes of the text behind the point: -1 when it is refused. */
  method ParseCents(s: bytes, start: nat) returns (gr: int)
    requires start <= |s|
    ensures gr == if |s| - start <= 2 && AllDigits(s[start..]) then CentsValue(s[start..]) else -1
  {
    gr := 0;
    var i, fracDigits: nat := start, 0;
    while i < |s|
      invariant start <= i <= |s| && fracDigits == i - start <= 2 && AllDigits(s[start..i])
      invariant gr == DigitsValue(s[start..i])
    {
      if s[i] < 48 || s[i] > 57 {
        assert s[start..][i - start] == s[i];
        return -1;
      }
      if fracDigits < 2 {
        DigitsValueSnoc(s[start..i], s[i]);
        assert s[start..i] + [s[i]] == s[start..i + 1];
        gr := gr * 10 + (s[i] as int - 48);
        fracDigits := fracDigits + 1;
      } else {
        return -1;
      }
      i := i + 1;
    }
    assert s[start..i] == s[start..];
    CentsAre(s[start..]);
    if fracDigits == 1 {
      gr := gr * 10;
    }
  }

  /** parse_zl_to_gr on a C string */
  method ParseZlToGr(s: bytes) returns (gr: int)
    ensures gr == match ParsedMoney(s) case None => -1 case Some(v) => v
  {
    hide CentsValue, DigitsValue, DigitRun;
    var zl, i, seenDigit := ParseWhole(s);
    if zl == -1 {
      return -1;
    }
    var cents := 0;
    if i < |s| {
      cents := ParseCents(s, i + 1);
      if cents == -1 {
        return -1;
      }
    }
    if !seenDigit {
      return -1;
    }
    assert s[..|s|] == s;
    NoCents();
    var result := zl * 100 + cents;
    assert IsLong(result);
    if result > INT_MAX {
      return -1;
    }
    return result;
  }

  lemma NoCents()
    ensures CentsValue([]) == 0
  {}

  lemma CentsAre(cents: bytes)
    requires AllDigits(cents) && |cents| <= 2
    ensures CentsValue(cents) == if |cents| == 1 then DigitsValue(cents) * 10 else DigitsValue(cents)
  {}

  // ----- quantities -----

  /** Exactly the positive numbers that a C int can hold, in digits. */
  function ParsedCount(s: bytes): Option<nat> {
    if s != [] && AllDigits(s) && 0 < DigitsValue(s) <= INT_MAX then Some(DigitsValue(s)) else None
  }

  /** parse_pos_int on a C string */
  method ParsePosInt(s: bytes) returns (n: int)
    ensures n == match ParsedCount(s) case None => -1 case Some(v) => v
  {
    if s == [] {
      return -1;
    }
    var v := 0;
    for i := 0 to |s|
      invariant AllDigits(s[..i]) && v == DigitsValue(s[..i]) && v <= INT_MAX
    {
      if s[i] < 48 || s[i] > 57 {
        return -1;
      }
      assert IsLong(v * 10 + 9);
      DigitsValueSnoc(s[..i], s[i]);
      assert s[..i] + [s[i]] == s[..i + 1];
      v := v * 10 + (s[i] as int - 48);
      if v > INT_MAX {
        if AllDigits(s) {
          DigitsValueGrows(s, i + 1);
        }
        return -1;
      }
    }
    assert s[..|s|] == s;
    return if v > 0 then v else -1;
  }

  // ----- printing -----

  /** C's division and remainder by 100, which round towards zero. */
  function Quotient(n: int): int { if n < 0 then -(-n / 100) else n / 100 }
  function Remainder(n: int): int { if n < 0 then -(-n % 100) else n % 100 }

  /** `%02d` */
  function TwoDigits(n: int): bytes { if 0 <= n < 10 then [48] + IntText(n) else IntText(n) }

  /** app_fmt_money */
  function MoneyText(gr: int): bytes { IntText(Quotient(gr)) + [POINT] + TwoDigits(Remainder(gr)) }

  /** Every amount that a C int can hold is printed as text that reads back as the same amount. */
  lemma MoneyRoundTrip(gr: nat)
    ensures ParsedMoney(MoneyText(gr)) == if gr <= INT_MAX then Some(gr) else None
  {
    var whole, cents := Digits(gr / 100), TwoDigits(gr % 100);
    if gr % 100 >= 10 {
      assert Digits(gr % 100) == Digits(gr % 100 / 10) + [48 + gr % 100 % 10];
    }
    assert |cents| == 2 && cents[0] == 48 + gr % 100 / 10 && cents[1] == 48 + gr % 100 % 10;
    assert Grosze(whole, cents) == gr;
    MoneyIs(MoneyText(gr), whole, cents);
  }

  /** Zeros may be left off behind the point, and the point too: `5`, `5.` and `5.0` are `5.00`, and
      `5.5` is `5.50`. */
  lemma ZerosLeftOff(whole: bytes, d: byte)
    requires whole != [] && AllDigits(whole) && IsDigit(d)
    ensures ParsedMoney(whole + [POINT, d]) == ParsedMoney(whole + [POINT, d, 48])
    ensures ParsedMoney(whole) == ParsedMoney(whole + [POINT]) == ParsedMoney(whole + [POINT, 48, 48])
  {
    hide ParsedMoney, DigitsValue;
    assert whole + [POINT] + [d] == whole + [POINT, d] && whole + [POINT] + [d, 48] == whole + [POINT, d, 48];
    assert whole + [POINT] + [] == whole + [POINT] && whole + [POINT] + [48, 48] == whole + [POINT, 48, 48];
    MoneyIs(whole + [POINT, d], whole, [d]);
    MoneyIs(whole + [POINT, d, 48], whole, [d, 48]);
    MoneyIs(whole, whole, []);
    MoneyIs(whole + [POINT], whole, []);
    MoneyIs(whole + [POINT, 48, 48], whole, [48, 48]);
  }
}
