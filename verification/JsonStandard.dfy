/** The texts of RFC 8259 among those cJSON takes for JSON, and what it makes of them. A character
    beyond ASCII counts as its UTF-8 bytes, which are not looked into. */
module JsonStandard {
  import opened Bytes
  import opened Decimals
  import opened Utf16
  import opened JsonValue
  import opened JsonReader
  import opened JsonSyntax
  import opened JsonStrings
  import opened JsonNumbers
  import opened JsonGrammar
  import opened JsonExact

  /** White space of section 2. */
  predicate StrictBlank(s: bytes) {
    forall i :: 0 <= i < |s| ==> s[i] == SPACE || s[i] == TAB || s[i] == NEWLINE || s[i] == 13
  }

  /** A byte that stands for itself. */
  predicate IsPlain(b: byte) { b >= SPACE && b != QUOTE && b != BACKSLASH }

  /** The characters of section 7: no control bytes, no bare quote, four hexadecimal digits. */
  predicate StrictUnit(u: Unit) {
    match u
    case Plain(b) => IsPlain(b)
    case Short(letter) => letter != LETTER_U && SimpleEscape(letter).Some?
    case Unicode(text, code) => IsEscape(text, code)
    case Hanging => false
  }

  predicate StrictUnits(us: seq<Unit>) { forall i :: 0 <= i < |us| ==> StrictUnit(us[i]) }

  /** The numerals of section 6: no leading zeros, digits on both sides of a point. */
  predicate StrictNumeral(n: Numeral) {
    && n.whole != [] && AllDigits(n.whole) && (|n.whole| > 1 ==> n.whole[0] != 48)
    && AllDigits(n.fraction) && (n.point <==> n.fraction != [])
    && (n.exponent.Some? ==> GoodExponent(n.exponent.value))
  }

  predicate Strict(s: Syntax) {
    match s
    case NullSyntax => true
    case BoolSyntax(_) => true
    case NumberSyntax(n) => StrictNumeral(n)
    case StringSyntax(us) => StrictUnits(us)
    case ArraySyntax(blank, items) => StrictBlank(blank) && StrictItems(items)
    case ObjectSyntax(blank, entries) => StrictBlank(blank) && StrictEntries(entries)
  }

  predicate StrictItems(items: seq<Item>) {
    items == [] ||
    (&& StrictBlank(items[0].before) && Strict(items[0].val) && StrictBlank(items[0].after)
     && StrictItems(items[1..]))
  }

  predicate StrictEntries(es: seq<Entry>) { es == [] || (StrictEntry(es[0]) && StrictEntries(es[1..])) }

  predicate StrictEntry(e: Entry) {
    && StrictBlank(e.before) && StrictUnits(e.key) && StrictBlank(e.afterKey)
    && StrictBlank(e.beforeVal) && Strict(e.val) && StrictBlank(e.after)
  }

  /** The text is the one of the tree, with white space around it. */
  predicate IsDocument(text: bytes, before: bytes, s: Syntax, after: bytes) {
    StrictBlank(before) && Strict(s) && StrictBlank(after) && text == before + Render(s) + after
  }

  /** A JSON text in the sense of RFC 8259. */
  ghost predicate IsJson(text: bytes) { exists before, s, after :: IsDocument(text, before, s, after) }

  // ----- they are among the texts of the grammar -----

  lemma {:induction false} UnclosedConcat(s: bytes, t: bytes)
    requires Unclosed(s) && Unclosed(t)
    ensures Unclosed(s + t)
    decreases |s|
  {
    if s == [] {
      assert s + t == t;
    } else {
      var n := if s[0] == BACKSLASH then 2 else 1;
      assert (s + t)[n..] == s[n..] + t;
      UnclosedConcat(s[n..], t);
    }
  }

  lemma StrictUnitGood(u: Unit)
    requires StrictUnit(u)
    ensures GoodUnit(u) && !u.Hanging? && Unclosed(RenderUnit(u))
  {
    if u.Unicode? {
      var t := u.text;
      assert IsHex(t[2..6][0]) && IsHex(t[2..6][1]) && IsHex(t[2..6][2]) && IsHex(t[2..6][3]);
      assert Unclosed(t[6..]) && Unclosed(t[5..]) && Unclosed(t[4..]) && Unclosed(t[3..]) && Unclosed(t[2..]);
    }
  }

  lemma {:induction false} StrictUnitsGood(us: seq<Unit>)
    requires StrictUnits(us)
    ensures GoodUnits(us)
  {
    hide GoodUnit, Unclosed, RenderUnit, StrictUnit;
    StrictPieces(us);
    StrictUnclosed(us);
  }

  lemma {:induction false} StrictUnclosed(us: seq<Unit>)
    requires StrictUnits(us)
    ensures Unclosed(RenderUnits(us))
  {
    hide StrictUnit, RenderUnit;
    if us != [] {
      StrictUnitGood(us[0]);
      StrictUnclosed(us[1..]);
      UnclosedConcat(RenderUnit(us[0]), RenderUnits(us[1..]));
    }
  }

  lemma StrictPieces(us: seq<Unit>)
    requires StrictUnits(us)
    ensures GoodPieces(us)
  {
    forall i | 0 <= i < |us| ensures GoodUnit(us[i]) && !us[i].Hanging? {
      StrictUnitGood(us[i]);
    }
  }

  lemma {:induction false} StrictGood(s: Syntax)
    requires Strict(s)
    ensures Good(s)
    decreases s, 2
  {
    hide StrictUnits, GoodUnits, StrictBlank, IsBlank;
    match s
    case StringSyntax(us) => StrictUnitsGood(us);
    case ArraySyntax(blank, items) =>
      StrictBlankGood(blank);
      StrictItemsGood(items);
    case ObjectSyntax(blank, entries) =>
      StrictBlankGood(blank);
      StrictEntriesGood(entries);
    case _ =>
  }

  lemma StrictBlankGood(s: bytes)
    requires StrictBlank(s)
    ensures IsBlank(s)
  {}

  lemma {:induction false} StrictItemsGood(items: seq<Item>)
    requires StrictItems(items)
    ensures GoodItems(items)
    decreases items, 0
  {
    hide Strict, Good, StrictBlank, IsBlank;
    if items != [] {
      StrictBlankGood(items[0].before);
      StrictBlankGood(items[0].after);
      StrictGood(items[0].val);
      StrictItemsGood(items[1..]);
    }
  }

  lemma {:induction false} StrictEntriesGood(es: seq<Entry>)
    requires StrictEntries(es)
    ensures GoodEntries(es)
    decreases es, 0
  {
    hide Strict, Good, StrictBlank, IsBlank, StrictUnits, GoodUnits;
    if es != [] {
      var e := es[0];
      StrictBlankGood(e.before);
      StrictBlankGood(e.afterKey);
      StrictBlankGood(e.beforeVal);
      StrictBlankGood(e.after);
      StrictUnitsGood(e.key);
      StrictGood(e.val);
      StrictEntriesGood(es[1..]);
    }
  }

  // ----- what the parser makes of them -----

  /** A JSON text in a C string is parsed to its end if and only if its surrogate escapes are paired
      and it nests at most 1000 deep; and then as what it means. */
  lemma ReadsJson(text: bytes, before: bytes, s: Syntax, after: bytes)
    requires IsDocument(text, before, s, after)
    ensures Good(s)
    ensures if Admitted(s, 0) then ReadDocument(text + [0], true) == Parsed(Meaning(s), |text|)
            else ReadDocument(text + [0], true).Rejected?
  {
    hide ReadDocument, Strict, Good, Admitted, Render, Meaning, StrictBlank, IsBlank, Stops, Terminates;
    StrictGood(s);
    StrictBlankGood(before);
    StrictBlankGood(after);
    var c, end := text + [0], |before| + |Render(s)|;
    assert [] + before + Render(s) + (after + [0]) == c;
    StopsAtBlank(s, after);
    ReadsDocument(false, before, s, after + [0]);
    if Admitted(s, 0) {
      DocumentEnds(c, |text|);
      assert c[end..|text|] == after;
      EndsOnTerminator(c, end, |text|);
    } else {
      DocumentFails(c);
    }
  }

  lemma EndsOnTerminator(c: bytes, end: nat, last: nat)
    requires end <= last && last + 1 == |c| && c[last] == 0 && IsBlank(c[end..last])
    ensures Terminates(c, end, last)
  {}

  lemma StopsAtBlank(s: Syntax, after: bytes)
    requires StrictBlank(after)
    ensures Stops(Render(s) + (after + [0]), s, |Render(s)|)
  {
    hide Render;
    var c := Render(s) + (after + [0]);
    assert c[|Render(s)|] == (after + [0])[0];
  }

  /** For instance, a string of one lone surrogate escape is JSON and is not read. */
  lemma LoneSurrogate(depth: nat)
    ensures var text: bytes := [QUOTE, BACKSLASH, LETTER_U, 68, 56, 48, 48, QUOTE];
      IsJson(text) && ReadString(text, 0, depth).Rejected?
  {
    var unit: bytes := [BACKSLASH, LETTER_U, 68, 56, 48, 48];
    var us := [Unicode(unit, 0xD800)];
    var text: bytes := [QUOTE, BACKSLASH, LETTER_U, 68, 56, 48, 48, QUOTE];
    assert unit[2..6] == [68, 56, 48, 48];
    assert RenderUnits(us) == unit + RenderUnits(us[1..]);
    assert RenderString(us) == text;
    LoneIsJson(text, us);
    StrictUnitsGood(us);
    AtWhole(text);
    ReadsString(text, 0, depth, us);
    assert !PairedAt(us, 0);
  }

  lemma LoneIsJson(text: bytes, us: seq<Unit>)
    requires StrictUnits(us) && text == RenderString(us)
    ensures IsJson(text)
  {
    var s := StringSyntax(us);
    assert [] + Render(s) + [] == text;
    assert IsDocument(text, [], s, []);
  }

  lemma OneUnit(u: Unit, text: bytes)
    requires StrictUnit(u) && !High(u) && !Low(u) && text == [QUOTE] + RenderUnit(u) + [QUOTE]
    ensures GoodUnits([u]) && Paired([u]) && text == RenderString([u]) && UnitsMeaning([u]) == FirstMeaning([u])
  {
    StrictUnitsGood([u]);
    assert RenderUnits([u]) == RenderUnit(u) + RenderUnits([u][1..]);
    assert [u][1..] == [];
    assert UnitsMeaning([u]) == FirstMeaning([u]) + UnitsMeaning([]);
  }

  /** A JSON string of one `\u` escape, its digits in either case each, is read as the character it names. */
  lemma ReadsEscape(digits: bytes, unit: nat, depth: nat)
    requires |digits| == 4 && 0 < unit < 0x10000 && !IsSurrogate(unit)
    requires DigitOf(digits[0], unit / 4096) && DigitOf(digits[1], unit / 256 % 16)
    requires DigitOf(digits[2], unit / 16 % 16) && DigitOf(digits[3], unit % 16)
    ensures var text := [QUOTE] + ([BACKSLASH, LETTER_U] + digits) + [QUOTE];
      ReadString(text, 0, depth) == Parsed(Utf8(unit), 8)
  {
    hide Utf8, ReadString, RenderString, CString, UnitsMeaning, GoodUnits, Paired, DigitOf;
    FourDigits(digits, unit);
    var escape := [BACKSLASH, LETTER_U] + digits;
    assert escape[2..6] == digits;
    var u, text := Unicode(escape, unit), [QUOTE] + escape + [QUOTE];
    OneUnit(u, text);
    AtWhole(text);
    ReadsString(text, 0, depth, [u]);
    Utf8NulFree(unit);
    CStringOfNulFree(Utf8(unit));
  }

  lemma Utf8NulFree(cp: nat)
    requires 0 < cp <= 0x10FFFF
    ensures NulFree(Utf8(cp))
  {}

  /** And one of a two-character escape as the byte it stands for. */
  lemma ReadsShort(letter: byte, depth: nat)
    requires SimpleEscape(letter).Some?
    ensures ReadString([QUOTE, BACKSLASH, letter, QUOTE], 0, depth) == Parsed([SimpleEscape(letter).value], 4)
  {
    hide ReadString, RenderString, CString, UnitsMeaning, GoodUnits, Paired;
    var u, text := Short(letter), [QUOTE, BACKSLASH, letter, QUOTE];
    assert text == [QUOTE] + RenderUnit(u) + [QUOTE];
    OneUnit(u, text);
    AtWhole(text);
    ReadsString(text, 0, depth, [u]);
    CStringOfNulFree([SimpleEscape(letter).value]);
  }

  /** A JSON text that begins like a number and does not end in white space is a numeral. */
  lemma NumeralText(text: bytes) returns (n: Numeral)
    requires IsJson(text) && text != [] && (text[0] == MINUS || IsDigit(text[0])) && text[|text| - 1] > SPACE
    ensures StrictNumeral(n) && RenderNumeral(n) == text
  {
    hide Render, StrictBlank, RenderNumeral;
    var before, s, after :| IsDocument(text, before, s, after);
    NotBlank(before, Render(s) + after);
    assert before + Render(s) + after == before + (Render(s) + after);
    NotBlankEnd(before + Render(s), after);
    assert Render(s) + [] == Render(s) && [] + Render(s) == Render(s);
    StrictGood(s);
    FirstByteOf(s);
    NumberRendered(s);
    n := s.numeral;
  }

  lemma NotBlank(before: bytes, rest: bytes)
    requires StrictBlank(before) && before + rest != [] && (before + rest)[0] > SPACE
    ensures before == []
  {}

  lemma NotBlankEnd(front: bytes, after: bytes)
    requires StrictBlank(after) && front + after != [] && (front + after)[|front + after| - 1] > SPACE
    ensures after == []
  {}

  lemma NumberRendered(s: Syntax)
    requires Good(s) && Render(s) != [] && (Render(s)[0] == MINUS || IsDigit(Render(s)[0]))
    ensures s.NumberSyntax? && Render(s) == RenderNumeral(s.numeral)
  {
    FirstByteOf(s);
  }

  /** For instance, `01` is not JSON, and is read as 1. */
  lemma LeadingZero()
    ensures !IsJson([48, 49]) && ReadValue([48, 49], 0, 0) == Parsed(Number(1, 0), 2)
  {
    hide ReadValue, IsJson;
    ReadsLeadingZero();
    if IsJson([48, 49]) {
      var n := NumeralText([48, 49]);
      BehindZero(n);
    }
  }

  /** What follows the whole part. */
  function Tail(n: Numeral): bytes {
    (if n.point then [POINT] else []) + n.fraction + RenderExponent(n.exponent)
  }

  lemma TailStarts(n: Numeral)
    requires StrictNumeral(n) && Tail(n) != []
    ensures Tail(n)[0] in {POINT, 101, 69}
  {}

  /** A minus sign or none, and a digit. */
  lemma NumeralStarts(n: Numeral)
    requires StrictNumeral(n)
    ensures RenderNumeral(n) == (if n.negative then [MINUS] else []) + (n.whole + Tail(n)) && IsDigit(n.whole[0])
    ensures n.negative ==> |RenderNumeral(n)| > 1 && IsDigit(RenderNumeral(n)[1])
  {
    hide RenderExponent;
    assert RenderNumeral(n) == (if n.negative then [MINUS] else []) + (n.whole + Tail(n));
  }

  lemma BehindZero(n: Numeral)
    requires StrictNumeral(n) && RenderNumeral(n) != [] && RenderNumeral(n)[0] == 48
    ensures |RenderNumeral(n)| > 1 ==> RenderNumeral(n)[1] in {POINT, 101, 69}
  {
    hide RenderNumeral, Tail, IsDigit;
    NumeralStarts(n);
    assert n.whole == [48];
    if Tail(n) != [] {
      TailStarts(n);
    }
  }

  /** And `-.5` is not JSON either, and is read as -0.5. */
  lemma BarePoint()
    ensures !IsJson([MINUS, POINT, 53]) && ReadValue([MINUS, POINT, 53], 0, 0) == Parsed(Number(-5, -1), 3)
  {
    hide ReadValue, IsJson;
    ReadsBarePoint();
    if IsJson([MINUS, POINT, 53]) {
      var n := NumeralText([MINUS, POINT, 53]);
      NumeralStarts(n);
    }
  }

  // ----- control bytes lie outside the strings -----

  /** Where in a text one is: outside the strings, in one, behind a backslash in one, or past a
      control byte in one. */
  datatype Place = Outside | Inside | Escaped | Lost

  function Pass(place: Place, b: byte): Place {
    match place
    case Outside => if b == QUOTE then Inside else Outside
    case Inside =>
      if b < SPACE then Lost else if b == QUOTE then Outside else if b == BACKSLASH then Escaped else Inside
    case Escaped => if b < SPACE then Lost else Inside
    case Lost => Lost
  }

  function Scan(place: Place, s: bytes): Place
    decreases |s|
  {
    if s == [] then place else Scan(Pass(place, s[0]), s[1..])
  }

  lemma {:induction false} ScanConcat(place: Place, s: bytes, t: bytes)
    ensures Scan(place, s + t) == Scan(Scan(place, s), t)
    decreases |s|
  {
    if s == [] {
      assert s + t == t;
    } else {
      assert (s + t)[1..] == s[1..] + t;
      ScanConcat(Pass(place, s[0]), s[1..], t);
    }
  }

  lemma {:induction false} ScanOutside(s: bytes)
    requires forall i :: 0 <= i < |s| ==> s[i] != QUOTE
    ensures Scan(Outside, s) == Outside
  {
    if s != [] {
      ScanOutside(s[1..]);
    }
  }

  lemma {:induction false} ScanPlain(s: bytes)
    requires forall i :: 0 <= i < |s| ==> IsPlain(s[i])
    ensures Scan(Inside, s) == Inside
  {
    if s != [] {
      assert IsPlain(s[0]);
      ScanPlain(s[1..]);
    }
  }

  lemma ScanEscape(letter: byte)
    requires letter >= SPACE
    ensures Scan(Inside, [BACKSLASH, letter]) == Inside
  {
    assert [BACKSLASH, letter] == [BACKSLASH] + [letter];
    ScanConcat(Inside, [BACKSLASH], [letter]);
    ScanByte(Inside, BACKSLASH);
    ScanByte(Escaped, letter);
  }

  lemma ScanUnit(u: Unit)
    requires StrictUnit(u)
    ensures Scan(Inside, RenderUnit(u)) == Inside
  {
    hide Scan;
    match u
    case Plain(b) => ScanByte(Inside, b);
    case Short(letter) => ScanEscape(letter);
    case Unicode(t, _) =>
      assert t == [BACKSLASH, LETTER_U] + t[2..6];
      ScanEscape(LETTER_U);
      ScanPlain(t[2..6]);
      ScanConcat(Inside, [BACKSLASH, LETTER_U], t[2..6]);
  }

  lemma {:induction false} ScanUnits(us: seq<Unit>)
    requires StrictUnits(us)
    ensures Scan(Inside, RenderUnits(us)) == Inside
  {
    hide StrictUnit, RenderUnit;
    if us != [] {
      ScanUnit(us[0]);
      ScanUnits(us[1..]);
      ScanConcat(Inside, RenderUnit(us[0]), RenderUnits(us[1..]));
    }
  }

  lemma ScanByte(place: Place, b: byte)
    ensures Scan(place, [b]) == Pass(place, b)
  {
    assert [b][1..] == [];
  }

  lemma ScanString(us: seq<Unit>)
    requires StrictUnits(us)
    ensures Scan(Outside, RenderString(us)) == Outside
  {
    hide StrictUnits, RenderUnits, Scan;
    ScanUnits(us);
    ScanByte(Outside, QUOTE);
    ScanByte(Inside, QUOTE);
    ScanConcat(Outside, [QUOTE], RenderUnits(us));
    ScanConcat(Outside, [QUOTE] + RenderUnits(us), [QUOTE]);
  }

  lemma ScanNumeral(n: Numeral)
    requires StrictNumeral(n)
    ensures Scan(Outside, RenderNumeral(n)) == Outside
  {
    hide Scan, RenderNumeral;
    assert GoodNumeral(n);
    NumeralChars(n);
    ScanOutside(RenderNumeral(n));
  }

  /** A piece of text that leads from outside the strings back there. */
  predicate Level(s: bytes) { Scan(Outside, s) == Outside }

  lemma LevelConcat(s: bytes, t: bytes)
    requires Level(s) && Level(t)
    ensures Level(s + t)
  {
    hide Scan;
    ScanConcat(Outside, s, t);
  }

  lemma LevelOutside(s: bytes)
    requires StrictBlank(s) || |s| == 0 || (|s| == 1 && s[0] != QUOTE)
    ensures Level(s)
  {
    hide Scan;
    ScanOutside(s);
  }

  /** In a JSON text no string holds a control byte. */
  lemma {:induction false} LevelSyntax(s: Syntax)
    requires Strict(s)
    ensures Level(Render(s))
    decreases s, 2
  {
    hide Level, RenderString, RenderNumeral, StrictUnits, StrictNumeral, StrictItems, StrictEntries, RenderItems,
      RenderEntries, StrictBlank;
    match s
    case NullSyntax => LevelKeywords();
    case BoolSyntax(_) => LevelKeywords();
    case NumberSyntax(n) => LevelNumeral(n);
    case StringSyntax(us) => LevelString(us);
    case ArraySyntax(blank, items) => LevelArray(s);
    case ObjectSyntax(blank, entries) => LevelObject(s);
  }

  lemma LevelKeywords()
    ensures Level(NULL_TEXT) && Level(FALSE_TEXT) && Level(TRUE_TEXT)
  {
    hide Scan;
    ScanOutside(NULL_TEXT);
    ScanOutside(FALSE_TEXT);
    ScanOutside(TRUE_TEXT);
  }

  lemma LevelNumeral(n: Numeral)
    requires StrictNumeral(n)
    ensures Level(RenderNumeral(n))
  {
    ScanNumeral(n);
  }

  lemma LevelString(us: seq<Unit>)
    requires StrictUnits(us)
    ensures Level(RenderString(us))
  {
    ScanString(us);
  }

  lemma {:induction false} LevelArray(s: Syntax)
    requires s.ArraySyntax? && Strict(s)
    ensures Level(Render(s))
    decreases s, 1
  {
    hide Level, StrictBlank, StrictItems, RenderItems;
    LevelOutside([LBRACKET]);
    LevelOutside([RBRACKET]);
    if s.items == [] {
      LevelOutside(s.blank);
      LevelConcat(s.blank, [RBRACKET]);
      LevelConcat([LBRACKET], s.blank + [RBRACKET]);
    } else {
      LevelItems(s.items);
      LevelConcat([LBRACKET], s.items[0].before + RenderItems(s.items));
    }
  }

  lemma {:induction false} LevelItems(items: seq<Item>)
    requires items != [] && StrictItems(items)
    ensures Level(items[0].before + RenderItems(items))
    decreases items, 0
  {
    hide Level, StrictBlank, Strict, Render;
    var first, after := Render(items[0].val), items[0].after;
    LevelSyntax(items[0].val);
    LevelOutside(items[0].before);
    LevelOutside(after);
    LevelConcat(first, after);
    if |items| == 1 {
      LevelOutside([RBRACKET]);
      LevelConcat(first + after, [RBRACKET]);
    } else {
      var more := items[1].before + RenderItems(items[1..]);
      LevelItems(items[1..]);
      LevelOutside([COMMA]);
      LevelConcat([COMMA], more);
      LevelConcat(first + after, [COMMA] + more);
      assert [COMMA] + items[1].before + RenderItems(items[1..]) == [COMMA] + more;
    }
    LevelConcat(items[0].before, RenderItems(items));
  }

  lemma {:induction false} LevelObject(s: Syntax)
    requires s.ObjectSyntax? && Strict(s)
    ensures Level(Render(s))
    decreases s, 1
  {
    hide Level, StrictBlank, StrictEntries, RenderEntries;
    LevelOutside([LBRACE]);
    LevelOutside([RBRACE]);
    if s.entries == [] {
      LevelOutside(s.blank);
      LevelConcat(s.blank, [RBRACE]);
      LevelConcat([LBRACE], s.blank + [RBRACE]);
    } else {
      LevelEntries(s.entries);
      LevelConcat([LBRACE], s.entries[0].before + RenderEntries(s.entries));
    }
  }

  lemma {:induction false} LevelEntry(e: Entry)
    requires StrictEntry(e)
    ensures Level(RenderEntry(e))
    decreases e, 0
  {
    hide Level, StrictBlank, Strict, StrictUnits, Render, RenderString;
    var key, val := RenderString(e.key), Render(e.val);
    LevelString(e.key);
    LevelSyntax(e.val);
    LevelOutside(e.afterKey);
    LevelOutside([COLON]);
    LevelOutside(e.beforeVal);
    LevelOutside(e.after);
    LevelConcat(key, e.afterKey);
    LevelConcat(key + e.afterKey, [COLON]);
    LevelConcat(key + e.afterKey + [COLON], e.beforeVal);
    LevelConcat(key + e.afterKey + [COLON] + e.beforeVal, val);
    LevelConcat(key + e.afterKey + [COLON] + e.beforeVal + val, e.after);
  }

  lemma {:induction false} LevelEntries(es: seq<Entry>)
    requires es != [] && StrictEntries(es)
    ensures Level(es[0].before + RenderEntries(es))
    decreases es, 0
  {
    hide Level, StrictBlank, RenderEntry;
    var first := RenderEntry(es[0]);
    LevelEntry(es[0]);
    LevelOutside(es[0].before);
    if |es| == 1 {
      LevelOutside([RBRACE]);
      LevelConcat(first, [RBRACE]);
    } else {
      var more := es[1].before + RenderEntries(es[1..]);
      LevelEntries(es[1..]);
      LevelOutside([COMMA]);
      LevelConcat([COMMA], more);
      LevelConcat(first, [COMMA] + more);
      assert [COMMA] + es[1].before + RenderEntries(es[1..]) == [COMMA] + more;
    }
    LevelConcat(es[0].before, RenderEntries(es));
  }

  /** No string of a JSON text holds a control byte. */
  lemma JsonIsLevel(text: bytes)
    requires IsJson(text)
    ensures Level(text)
  {
    hide Level, Strict, StrictBlank, Render;
    var before, s, after :| IsDocument(text, before, s, after);
    LevelSyntax(s);
    LevelOutside(before);
    LevelOutside(after);
    LevelConcat(before, Render(s));
    LevelConcat(before + Render(s), after);
  }
}
