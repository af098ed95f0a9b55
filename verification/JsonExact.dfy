/** Everything cJSON parses is a text of the grammar of module JsonSyntax; with module JsonGrammar
    that says exactly what it accepts, where it stops, and as what it reads it. */
module JsonExact {
  import opened Bytes
  import opened Decimals
  import opened Utf16
  import opened JsonValue
  import opened JsonReader
  import opened JsonSyntax
  import opened JsonStrings
  import opened JsonNumbers
  import opened JsonGrammar

  /** `s` stands at `off`, ends at `end`, and is one that is read there as `v`. */
  predicate Stands(c: bytes, off: nat, depth: nat, s: Syntax, v: Value, end: nat) {
    && Good(s) && Admitted(s, depth) && At(c, off, Render(s)) && end == off + |Render(s)| && Stops(c, s, end)
    && Meaning(s) == v
  }

  lemma SkippedBlank(c: bytes, off: nat)
    requires off <= |c|
    ensures var p := SkipSpace(c, off); At(c, off, c[off..p]) && IsBlank(c[off..p])
  {}

  /** Where a skip ends there is nothing more to skip. */
  lemma StepsOn(c: bytes, off: nat)
    requires off <= |c|
    ensures SkipSpace(c, SkipSpace(c, off)) == SkipSpace(c, off)
  {}

  lemma {:induction false} SoundValue(c: bytes, off: nat, depth: nat) returns (s: Syntax)
    requires off <= |c| && depth <= NESTING_LIMIT && ReadValue(c, off, depth).Parsed?
    ensures Stands(c, off, depth, s, ReadValue(c, off, depth).value, ReadValue(c, off, depth).off)
    decreases |c| - off, 3
  {
    hide ReadString, ReadNumber, ReadArray, ReadObject, RenderString, RenderNumeral, At, GoodUnits, GoodNumeral,
      StringMeaning, NumeralMantissa, NumeralExponent, NumeralEnds, Paired;
    if At(c, off, NULL_TEXT) {
      s := NullSyntax;
    } else if At(c, off, FALSE_TEXT) {
      s := BoolSyntax(false);
    } else if At(c, off, TRUE_TEXT) {
      s := BoolSyntax(true);
    } else if c[off] == QUOTE {
      var us := SoundString(c, off, depth);
      s := StringSyntax(us);
    } else if c[off] == MINUS || IsDigit(c[off]) {
      var n := SoundNumber(c, off, depth);
      s := NumberSyntax(n);
    } else if c[off] == LBRACKET {
      s := SoundArray(c, off, depth);
    } else {
      s := SoundObject(c, off, depth);
    }
  }

  // ----- arrays -----

  /** One more item in front. */
  lemma ItemsCons(e: Item, rest: seq<Item>)
    requires IsBlank(e.before) && Good(e.val) && IsBlank(e.after) && GoodItems(rest)
    ensures var es := [e] + rest;
      && GoodItems(es) && ItemsMeaning(es) == [Meaning(e.val)] + ItemsMeaning(rest)
      && ItemsNesting(es) == Max(Nesting(e.val), ItemsNesting(rest))
      && (ItemsPaired(es) <==> AllPaired(e.val) && ItemsPaired(rest))
      && RenderItems(es) == Render(e.val) + e.after
         + if rest == [] then [RBRACKET] else [COMMA] + rest[0].before + RenderItems(rest)
  {
    hide Good, Render, Meaning, Nesting, IsBlank, AllPaired;
    assert ([e] + rest)[1..] == rest;
  }

  lemma {:induction false} SoundArray(c: bytes, off: nat, depth: nat) returns (s: Syntax)
    requires off < |c| && c[off] == LBRACKET && ReadArray(c, off, depth).Parsed?
    ensures Stands(c, off, depth, s, ReadArray(c, off, depth).value, ReadArray(c, off, depth).off)
    decreases |c| - off, 2
  {
    hide ReadElements, SkipSpace, At, GoodItems, RenderItems, ItemsMeaning, ItemsNesting, ItemsPaired, IsBlank;
    var p := SkipSpace(c, off + 1);
    var blank := c[off + 1..p];
    SkippedBlank(c, off + 1);
    AtByte(c, off, LBRACKET);
    NoItems();
    if c[p] == RBRACKET {
      s := ArraySyntax(blank, []);
      AtByte(c, p, RBRACKET);
      AtConcat(c, off + 1, blank, [RBRACKET]);
      AtConcat(c, off, [LBRACKET], blank + [RBRACKET]);
    } else {
      StepsOn(c, off + 1);
      var es := SoundItems(c, p - 1, depth + 1, [], blank);
      s := ArraySyntax(blank, es);
      AtConcat(c, off + 1, blank, RenderItems(es));
      AtConcat(c, off, [LBRACKET], blank + RenderItems(es));
      assert [] + ItemsMeaning(es) == ItemsMeaning(es);
    }
  }

  lemma {:induction false} SoundItems(c: bytes, q: nat, depth: nat, done: seq<Value>, before: bytes)
    returns (es: seq<Item>)
    requires q < |c| && depth <= NESTING_LIMIT && IsBlank(before) && ReadElements(c, q, depth, done).Parsed?
    ensures es != [] && es[0].before == before && GoodItems(es)
    ensures ItemsPaired(es) && depth + ItemsNesting(es) <= NESTING_LIMIT
    ensures At(c, SkipSpace(c, q + 1), RenderItems(es))
    ensures ReadElements(c, q, depth, done)
         == Parsed(Array(done + ItemsMeaning(es)), SkipSpace(c, q + 1) + |RenderItems(es)|)
    decreases |c| - q, 1
  {
    hide ReadValue, SkipSpace, At, Good, GoodItems, Render, RenderItems, Meaning, ItemsMeaning, Nesting, ItemsNesting,
      AllPaired, ItemsPaired, IsBlank, Stops;
    var p := SkipSpace(c, q + 1);
    var v := SoundValue(c, p, depth);
    var o := p + |Render(v)|;
    SkippedBlank(c, o);
    var next := SkipSpace(c, o);
    var e := Item(before, v, c[o..next]);
    NoItems();
    if c[next] == COMMA {
      SkippedBlank(c, next + 1);
      var gap := c[next + 1..SkipSpace(c, next + 1)];
      var rest := SoundItems(c, next, depth, done + [Meaning(v)], gap);
      ItemsCons(e, rest);
      es := [e] + rest;
      Tail(c, p, Render(v), e.after, COMMA, gap, RenderItems(rest));
      Regroup(done, [Meaning(v)], ItemsMeaning(rest));
    } else {
      ItemsCons(e, []);
      es := [e] + [];
      AtNothing(c, next + 1);
      Tail(c, p, Render(v), e.after, RBRACKET, [], []);
      Regroup(done, [Meaning(v)], []);
      assert done + [Meaning(v)] + [] == done + [Meaning(v)];
    }
  }

  /** Four pieces one behind the other, with a byte between. */
  lemma Tail(c: bytes, p: nat, text: bytes, after: bytes, b: byte, gap: bytes, more: bytes)
    requires At(c, p, text) && At(c, p + |text|, after)
    requires var next := p + |text| + |after|;
      next < |c| && c[next] == b && At(c, next + 1, gap) && At(c, next + 1 + |gap|, more)
    ensures At(c, p, text + after + ([b] + gap + more)) && At(c, p, text + after + [b])
    ensures |text + after + ([b] + gap + more)| == |text| + |after| + 1 + |gap| + |more|
  {
    hide At;
    AtByte(c, p + |text| + |after|, b);
    AtConcat(c, p, text, after);
    AtConcat(c, p, text + after, [b]);
    AtConcat(c, p + |text| + |after|, [b], gap);
    AtConcat(c, p + |text| + |after|, [b] + gap, more);
    AtConcat(c, p, text + after, [b] + gap + more);
  }

  // ----- objects -----

  lemma EntriesCons(e: Entry, rest: seq<Entry>)
    requires GoodEntry(e) && GoodEntries(rest)
    ensures var es := [e] + rest;
      && GoodEntries(es) && EntriesMeaning(es) == [EntryMeaning(e)] + EntriesMeaning(rest)
      && EntriesNesting(es) == Max(Nesting(e.val), EntriesNesting(rest))
      && (EntriesPaired(es) <==> Paired(e.key) && AllPaired(e.val) && EntriesPaired(rest))
      && RenderEntries(es)
         == RenderEntry(e) + if rest == [] then [RBRACE] else [COMMA] + rest[0].before + RenderEntries(rest)
  {
    hide GoodEntry, RenderEntry, EntryMeaning, Nesting, AllPaired, Paired;
    assert ([e] + rest)[1..] == rest;
  }

  lemma {:induction false} SoundObject(c: bytes, off: nat, depth: nat) returns (s: Syntax)
    requires off < |c| && c[off] == LBRACE && ReadObject(c, off, depth).Parsed?
    ensures Stands(c, off, depth, s, ReadObject(c, off, depth).value, ReadObject(c, off, depth).off)
    decreases |c| - off, 2
  {
    hide ReadMembers, SkipSpace, At, GoodEntries, RenderEntries, EntriesMeaning, EntriesNesting, EntriesPaired, IsBlank;
    var p := SkipSpace(c, off + 1);
    var blank := c[off + 1..p];
    SkippedBlank(c, off + 1);
    AtByte(c, off, LBRACE);
    NoEntries();
    if c[p] == RBRACE {
      s := ObjectSyntax(blank, []);
      AtByte(c, p, RBRACE);
      AtConcat(c, off + 1, blank, [RBRACE]);
      AtConcat(c, off, [LBRACE], blank + [RBRACE]);
    } else {
      StepsOn(c, off + 1);
      var es := SoundEntries(c, p - 1, depth + 1, [], blank);
      s := ObjectSyntax(blank, es);
      AtConcat(c, off + 1, blank, RenderEntries(es));
      AtConcat(c, off, [LBRACE], blank + RenderEntries(es));
      assert [] + EntriesMeaning(es) == EntriesMeaning(es);
    }
  }

  lemma {:induction false} SoundEntries(c: bytes, q: nat, depth: nat, done: seq<Member>, before: bytes)
    returns (es: seq<Entry>)
    requires q < |c| && depth <= NESTING_LIMIT && IsBlank(before) && ReadMembers(c, q, depth, done).Parsed?
    ensures es != [] && es[0].before == before && GoodEntries(es)
    ensures EntriesPaired(es) && depth + EntriesNesting(es) <= NESTING_LIMIT
    ensures At(c, SkipSpace(c, q + 1), RenderEntries(es))
    ensures ReadMembers(c, q, depth, done)
         == Parsed(Object(done + EntriesMeaning(es)), SkipSpace(c, q + 1) + |RenderEntries(es)|)
    decreases |c| - q, 1
  {
    hide ReadMember, SkipSpace, At, GoodEntry, GoodEntries, RenderEntry, RenderEntries, EntryMeaning, EntriesMeaning,
      Nesting, EntriesNesting, Paired, AllPaired, EntriesPaired, IsBlank;
    var p := SkipSpace(c, q + 1);
    var e := SoundEntry(c, q, depth, before);
    var next := p + |RenderEntry(e)|;
    NoEntries();
    AtNothing(c, next);
    if c[next] == COMMA {
      SkippedBlank(c, next + 1);
      var gap := c[next + 1..SkipSpace(c, next + 1)];
      var rest := SoundEntries(c, next, depth, done + [EntryMeaning(e)], gap);
      EntriesCons(e, rest);
      es := [e] + rest;
      Tail(c, p, RenderEntry(e), [], COMMA, gap, RenderEntries(rest));
      assert RenderEntry(e) + [] == RenderEntry(e);
      Regroup(done, [EntryMeaning(e)], EntriesMeaning(rest));
    } else {
      EntriesCons(e, []);
      es := [e] + [];
      AtNothing(c, next + 1);
      Tail(c, p, RenderEntry(e), [], RBRACE, [], []);
      assert RenderEntry(e) + [] == RenderEntry(e);
      assert done + ([EntryMeaning(e)] + []) == done + [EntryMeaning(e)];
    }
  }

  lemma {:induction false} SoundEntry(c: bytes, q: nat, depth: nat, before: bytes) returns (e: Entry)
    requires q < |c| && depth <= NESTING_LIMIT && IsBlank(before) && ReadMember(c, q, depth).Parsed?
    ensures GoodEntry(e) && e.before == before && Paired(e.key) && Admitted(e.val, depth)
    ensures At(c, SkipSpace(c, q + 1), RenderEntry(e))
    ensures ReadMember(c, q, depth) == Parsed(EntryMeaning(e), SkipSpace(c, q + 1) + |RenderEntry(e)|)
    decreases |c| - q, 0
  {
    hide ReadString, ReadValue, SkipSpace, At, GoodUnits, Good, RenderString, Render, StringMeaning, Meaning, Nesting,
      IsBlank, Paired, AllPaired, Stops;
    var p := SkipSpace(c, q + 1);
    var key := SoundString(c, p, depth);
    var o := p + |RenderString(key)|;
    SkippedBlank(c, o);
    var colon := SkipSpace(c, o);
    SkippedBlank(c, colon + 1);
    var at := SkipSpace(c, colon + 1);
    var v := SoundValue(c, at, depth);
    var end := at + |Render(v)|;
    SkippedBlank(c, end);
    e := Entry(before, key, c[o..colon], c[colon + 1..at], v, c[end..SkipSpace(c, end)]);
    Tail(c, p, RenderString(key), e.afterKey, COLON, e.beforeVal, Render(v));
    var head := RenderString(key) + e.afterKey + ([COLON] + e.beforeVal + Render(v));
    AtConcat(c, p, head, e.after);
    assert head + e.after == RenderEntry(e);
  }

  // ----- both directions -----

  /** parse_value accepts exactly the texts of the grammar whose surrogate escapes are paired and
      that nest no deeper than allowed, numerals as far as they go, and reads them as what they mean. */
  lemma ParsesExactly(c: bytes, off: nat, depth: nat, v: Value, end: nat)
    requires off <= |c| && depth <= NESTING_LIMIT
    ensures ReadValue(c, off, depth) == Parsed(v, end) <==> exists s :: Stands(c, off, depth, s, v, end)
  {
    hide ReadValue, Good, Admitted, At, Render, Stops, Meaning;
    if ReadValue(c, off, depth) == Parsed(v, end) {
      var s := SoundValue(c, off, depth);
    }
    forall s | Stands(c, off, depth, s, v, end) ensures ReadValue(c, off, depth) == Parsed(v, end) {
      ReadsSyntax(c, off, depth, s);
    }
  }

  /** A value of the grammar behind the byte order mark and white space. */
  predicate Holds(c: bytes, before: bytes, s: Syntax, v: Value, end: nat) {
    IsBlank(before) && At(c, SkipBom(c), before) && Stands(c, SkipBom(c) + |before|, 0, s, v, end)
  }

  lemma HoldsRead(c: bytes, before: bytes, s: Syntax, v: Value, end: nat)
    requires Holds(c, before, s, v, end)
    ensures ReadDocument(c, false) == Parsed(v, end)
  {
    hide ReadDocument, Good, Admitted, At, Render, Stops, Meaning, SkipBom, IsBlank;
    ReadsFrom(c, SkipBom(c), before, s);
  }

  lemma SoundDocument(c: bytes) returns (before: bytes, s: Syntax)
    requires ReadDocument(c, false).Parsed?
    ensures Holds(c, before, s, ReadDocument(c, false).value, ReadDocument(c, false).off)
  {
    hide ReadValue, SkipSpace, SkipBom, At, Stands, IsBlank;
    var off := SkipBom(c);
    var p := SkipSpace(c, off);
    SkippedBlank(c, off);
    before := c[off..p];
    s := SoundValue(c, p, 0);
  }

  /** With the terminator required, it must be the last byte and nothing but white space may come
      before it. */
  predicate Terminates(c: bytes, end: nat, last: nat) {
    end <= last && last + 1 == |c| && c[last] == 0 && IsBlank(c[end..last])
  }

  lemma TerminatorSkipped(c: bytes, end: nat, last: nat)
    requires end <= |c|
    ensures Terminates(c, end, last) <==> SkipSpace(c, end) == last && last < |c| && c[last] == 0
  {
    if end <= last < |c| {
      assert forall k :: end <= k < last ==> c[k] == c[end..last][k - end];
    }
  }

  /** cJSON_ParseWithLengthOpts accepts exactly the documents of the grammar. */
  lemma DocumentExactly(c: bytes, requireNul: bool, v: Value, last: nat)
    ensures ReadDocument(c, requireNul) == Parsed(v, last)
      <==> exists before, s, end ::
             Holds(c, before, s, v, end) && if requireNul then Terminates(c, end, last) else last == end
  {
    hide Holds, Terminates, ReadDocument;
    if ReadDocument(c, false).Parsed? {
      var before, s := SoundDocument(c);
      var Parsed(value, end) := ReadDocument(c, false);
      DocumentEnds(c, last);
      assert Holds(c, before, s, value, end);
    } else {
      DocumentFails(c);
    }
    forall before, s, end | Holds(c, before, s, v, end) ensures ReadDocument(c, false) == Parsed(v, end) {
      HoldsRead(c, before, s, v, end);
    }
  }

  lemma {:induction false} DocumentEnds(c: bytes, last: nat)
    requires ReadDocument(c, false).Parsed?
    ensures ReadDocument(c, true) == Parsed(ReadDocument(c, false).value, last)
        <==> Terminates(c, ReadDocument(c, false).off, last)
    ensures ReadDocument(c, true).Parsed? ==> ReadDocument(c, true).value == ReadDocument(c, false).value
  {
    hide ReadValue, SkipSpace, SkipBom, Terminates;
    TerminatorSkipped(c, ReadDocument(c, false).off, last);
  }

  lemma DocumentFails(c: bytes)
    requires ReadDocument(c, false).Rejected?
    ensures ReadDocument(c, true).Rejected?
  {
    hide ReadValue, SkipSpace, SkipBom;
  }

  // ----- for instance -----

  /** `01` is not a numeral of RFC 8259, and is read as 1. */
  lemma ReadsLeadingZero()
    ensures ReadValue([48, 49], 0, 0) == Parsed(Number(1, 0), 2)
  {
    var c: bytes := [48, 49];
    assert !At(c, 0, NULL_TEXT) && !At(c, 0, FALSE_TEXT) && !At(c, 0, TRUE_TEXT);
    NumberRunIs(c, 0, 2);
    assert c[0..2] == c;
    DigitRunIs(c, 0, 2);
    assert c[0..2] + [] == c && c[..1] == [48] && [48][..0] == [];
    assert DigitsValue(c) == DigitsValue([48]) * 10 + 1;
  }

  /** `-.5`, which is not one either, is read, and `.5` is not. */
  lemma ReadsBarePoint()
    ensures ReadValue([MINUS, POINT, 53], 0, 0) == Parsed(Number(-5, -1), 3)
    ensures ReadValue([POINT, 53], 0, 0).Rejected?
  {
    hide RenderNumeral, At, ReadNumber, ReadArray, ReadObject, NumeralEnds;
    var n := MinusPointFive();
    var c: bytes := [MINUS, POINT, 53];
    AtWhole(c);
    NothingFollows(c, n);
    ReadsSyntax(c, 0, 0, NumberSyntax(n));
    Keywords([POINT, 53], 0);
  }

  lemma MinusPointFive() returns (n: Numeral)
    ensures GoodNumeral(n) && RenderNumeral(n) == [MINUS, POINT, 53] && n.exponent.None? && n.point
    ensures NumeralMantissa(n) == -5 && NumeralExponent(n) == -1
  {
    n := Numeral(true, [], true, [53], None);
    assert [] + [53] == [53] && [53][..0] == [];
  }

  lemma NothingFollows(c: bytes, n: Numeral)
    ensures NumeralEnds(c, n, |c|)
  {}

  /** And four bytes that are no digits behind `\u` are read as U+0000, which ends the string. */
  lemma ReadsBadDigits(c: bytes, depth: nat)
    requires |c| == 8 && c[0] == QUOTE && c[1] == BACKSLASH && c[2] == LETTER_U && c[7] == QUOTE
    requires forall k :: 3 <= k < 7 ==> c[k] == 120
    ensures ReadString(c, 0, depth) == Parsed([], 8)
  {
    assert CloseQuote(c, 1) == CloseQuote(c, 3) == CloseQuote(c, 4) == CloseQuote(c, 5) == CloseQuote(c, 6);
    assert CloseQuote(c, 6) == CloseQuote(c, 7);
    assert c[3..7][0] == 120;
    assert ReadCodePoint(c, 1, 7) == Some((0, 6));
    assert Unescape(c, 1, 7, []) == Unescape(c, 7, 7, [] + [0]);
  }
}
