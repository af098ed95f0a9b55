/** The text print_value makes of a tree, formatted or not, and the round trip: that text
    is a text of the grammar whose meaning is the tree. */
module JsonText {
  import opened Bytes
  import opened Decimals
  import opened JsonValue
  import opened JsonReader
  import opened JsonSyntax
  import opened JsonGrammar
  import opened JsonStandard

  /** The trees this model prints: `%d` for every number, C strings for every text. */
  predicate Printable(v: Value) {
    match v
    case Number(m, e) => e == 0 && IsInt32(m)
    case String(s) => NulFree(s)
    case Array(es) => AllPrintable(es)
    case Object(ms) => AllMembersPrintable(ms)
    case _ => true
  }

  predicate AllPrintable(es: seq<Value>) {
    es == [] || (Printable(es[0]) && AllPrintable(es[1..]))
  }

  predicate AllMembersPrintable(ms: seq<Member>) {
    ms == [] || (NulFree(ms[0].key) && Printable(ms[0].val) && AllMembersPrintable(ms[1..]))
  }

  function Height(v: Value): nat {
    match v
    case Array(es) => 1 + ElementsHeight(es)
    case Object(ms) => 1 + MembersHeight(ms)
    case _ => 0
  }

  function ElementsHeight(es: seq<Value>): nat {
    if es == [] then 0 else Max(Height(es[0]), ElementsHeight(es[1..]))
  }

  function MembersHeight(ms: seq<Member>): nat {
    if ms == [] then 0 else Max(Height(ms[0].val), MembersHeight(ms[1..]))
  }

  // ----- the text -----

  function HexDigit(v: nat): byte
    requires v < 16
  {
    if v < 10 then 48 + v else 87 + v
  }

  /** The letter of the two-character escape of `b`, if it has one. */
  function EscapeLetter(b: byte): Option<byte> {
    if b == QUOTE || b == BACKSLASH then Some(b)
    else if b == 8 then Some(98)
    else if b == 12 then Some(102)
    else if b == 10 then Some(110)
    else if b == 13 then Some(114)
    else if b == 9 then Some(116)
    else None
  }

  function EscapeByte(b: byte): (t: bytes)
    ensures |t| == 1 || |t| == 2 || |t| == 6
  {
    if EscapeLetter(b).Some? then [BACKSLASH, EscapeLetter(b).value]
    else if b > 31 then [b]
    else [BACKSLASH, LETTER_U, 48, 48, HexDigit(b / 16), HexDigit(b % 16)]
  }

  function EscapeText(s: bytes): bytes {
    if s == [] then [] else EscapeByte(s[0]) + EscapeText(s[1..])
  }

  function StringText(s: bytes): bytes { [QUOTE] + EscapeText(s) + [QUOTE] }

  function Tabs(n: nat): (t: bytes)
    ensures |t| == n && forall i :: 0 <= i < n ==> t[i] == TAB
  {
    if n == 0 then [] else Tabs(n - 1) + [TAB]
  }

  function When(fmt: bool, s: bytes): bytes { if fmt then s else [] }

  function Text(v: Value, fmt: bool, depth: nat): bytes {
    match v
    case Null => NULL_TEXT
    case Bool(b) => if b then TRUE_TEXT else FALSE_TEXT
    case Number(m, _) => IntText(m)
    case String(s) => StringText(s)
    case Array(es) => [LBRACKET] + ElementsText(es, fmt, depth + 1) + [RBRACKET]
    case Object(ms) =>
      [LBRACE] + When(fmt, [NEWLINE]) + MembersText(ms, fmt, depth + 1) + When(fmt, Tabs(depth)) + [RBRACE]
  }

  function ElementsText(es: seq<Value>, fmt: bool, depth: nat): bytes {
    if es == [] then []
    else
      Text(es[0], fmt, depth) + (if |es| == 1 then [] else [COMMA] + When(fmt, [SPACE]))
      + ElementsText(es[1..], fmt, depth)
  }

  function MembersText(ms: seq<Member>, fmt: bool, depth: nat): bytes {
    if ms == [] then []
    else MemberText(ms[0], fmt, depth, |ms| == 1) + MembersText(ms[1..], fmt, depth)
  }

  function MemberText(m: Member, fmt: bool, depth: nat, last: bool): bytes {
    When(fmt, Tabs(depth)) + StringText(m.key) + [COLON] + When(fmt, [TAB]) + Text(m.val, fmt, depth)
    + (if last then [] else [COMMA]) + When(fmt, [NEWLINE])
  }

  // ----- that text in the grammar -----

  function UnitOf(b: byte): Unit {
    if EscapeLetter(b).Some? then Short(EscapeLetter(b).value)
    else if b > 31 then Plain(b)
    else Unicode(EscapeByte(b), b)
  }

  function UnitsOf(s: bytes): seq<Unit> {
    if s == [] then [] else [UnitOf(s[0])] + UnitsOf(s[1..])
  }

  function NumeralOf(m: int): Numeral {
    Numeral(m < 0, Digits(if m < 0 then -m else m), false, [], None)
  }

  function SyntaxOf(v: Value, fmt: bool, depth: nat): Syntax {
    match v
    case Null => NullSyntax
    case Bool(b) => BoolSyntax(b)
    case Number(m, _) => NumberSyntax(NumeralOf(m))
    case String(s) => StringSyntax(UnitsOf(s))
    case Array(es) => ArraySyntax([], ItemsOf(es, fmt, depth + 1, []))
    case Object(ms) => ObjectSyntax(When(fmt, [NEWLINE] + Tabs(depth)), EntriesOf(ms, fmt, depth + 1))
  }

  function ItemsOf(es: seq<Value>, fmt: bool, depth: nat, lead: bytes): seq<Item> {
    if es == [] then []
    else [Item(lead, SyntaxOf(es[0], fmt, depth), [])] + ItemsOf(es[1..], fmt, depth, When(fmt, [SPACE]))
  }

  function EntriesOf(ms: seq<Member>, fmt: bool, depth: nat): seq<Entry>
    requires depth > 0
  {
    if ms == [] then []
    else [EntryOf(ms[0], fmt, depth, |ms| == 1)] + EntriesOf(ms[1..], fmt, depth)
  }

  function EntryOf(m: Member, fmt: bool, depth: nat, last: bool): Entry
    requires depth > 0
  {
    Entry(When(fmt, [NEWLINE] + Tabs(depth)), UnitsOf(m.key), [], When(fmt, [TAB]), SyntaxOf(m.val, fmt, depth),
          When(fmt && last, [NEWLINE] + Tabs(depth - 1)))
  }

  lemma UnitOfIs(b: byte)
    requires b != 0
    ensures StrictUnit(UnitOf(b)) && RenderUnit(UnitOf(b)) == EscapeByte(b) && !High(UnitOf(b)) && !Low(UnitOf(b))
  {}

  lemma UnitOfMeans(b: byte, us: seq<Unit>)
    requires b != 0 && us != [] && us[0] == UnitOf(b) && GoodPieces(us)
    ensures FirstMeaning(us) == [b] && Width(us) == 1
  {
    hide GoodPieces;
  }

  lemma {:induction false} UnitsOfAre(s: bytes)
    requires NulFree(s)
    ensures StrictUnits(UnitsOf(s)) && RenderUnits(UnitsOf(s)) == EscapeText(s)
    ensures forall i :: 0 <= i < |UnitsOf(s)| ==> !High(UnitsOf(s)[i]) && !Low(UnitsOf(s)[i])
  {
    hide UnitOf, StrictUnit, RenderUnit, EscapeByte, High, Low;
    if s != [] {
      UnitOfIs(s[0]);
      UnitsOfAre(s[1..]);
      assert UnitsOf(s)[1..] == UnitsOf(s[1..]);
    }
  }

  lemma NoSurrogates(us: seq<Unit>)
    requires forall i :: 0 <= i < |us| ==> !High(us[i]) && !Low(us[i])
    ensures Paired(us)
  {}

  lemma {:induction false} UnitsOfMean(s: bytes)
    requires NulFree(s)
    ensures GoodPieces(UnitsOf(s)) && UnitsMeaning(UnitsOf(s)) == s
  {
    hide UnitOf, FirstMeaning, Width, GoodPieces;
    UnitsOfAre(s);
    StrictPieces(UnitsOf(s));
    if s != [] {
      UnitsOfMean(s[1..]);
      UnitOfMeans(s[0], UnitsOf(s));
      assert UnitsOf(s)[1..] == UnitsOf(s[1..]);
      assert [s[0]] + s[1..] == s;
    }
  }

  /** The units stand for the text and are a string of section 7 of RFC 8259. */
  predicate SpellsString(us: seq<Unit>, text: bytes, s: bytes) {
    StrictUnits(us) && GoodUnits(us) && Paired(us) && RenderString(us) == text && StringMeaning(us) == s
  }

  lemma StringOfIs(s: bytes)
    requires NulFree(s)
    ensures SpellsString(UnitsOf(s), StringText(s), s)
  {
    hide StrictUnits, Paired;
    UnitsOfAre(s);
    UnitsOfMean(s);
    NoSurrogates(UnitsOf(s));
    StrictUnitsGood(UnitsOf(s));
    CStringOfNulFree(s);
  }

  lemma NumeralOfSpells(m: int)
    ensures StrictNumeral(NumeralOf(m)) && RenderNumeral(NumeralOf(m)) == IntText(m)
  {
    hide Digits, DigitsValue;
    var n := NumeralOf(m);
    var sign: bytes := if n.negative then [MINUS] else [];
    assert sign + n.whole + [] + [] == sign + n.whole;
    assert [] + n.whole == n.whole;
  }

  lemma NumeralOfValue(m: int)
    requires GoodNumeral(NumeralOf(m))
    ensures NumeralMantissa(NumeralOf(m)) == m && NumeralExponent(NumeralOf(m)) == 0
  {
    hide Digits, DigitsValue, GoodNumeral;
    var n := NumeralOf(m);
    assert n.whole + n.fraction == n.whole;
  }

  lemma NumeralOfIs(m: int)
    ensures StrictNumeral(NumeralOf(m)) && GoodNumeral(NumeralOf(m)) && RenderNumeral(NumeralOf(m)) == IntText(m)
    ensures NumeralMantissa(NumeralOf(m)) == m && NumeralExponent(NumeralOf(m)) == 0
  {
    hide RenderNumeral, NumeralMantissa, NumeralExponent, NumeralOf, IntText;
    NumeralOfSpells(m);
    NumeralOfValue(m);
  }

  lemma TabsAreBlank(fmt: bool, n: nat)
    ensures var s := When(fmt, [NEWLINE] + Tabs(n)); StrictBlank(s) && IsBlank(s)
  {}

  /** `s` is a JSON text of RFC 8259, spelled `t`, that means `v`. */
  predicate Spells(s: Syntax, t: bytes, v: Value) {
    && Strict(s) && Good(s) && AllPaired(s) && Render(s) == t && Meaning(s) == v && Nesting(s) == Height(v)
  }

  lemma {:induction false} SyntaxOfIs(v: Value, fmt: bool, depth: nat)
    requires Printable(v)
    ensures Spells(SyntaxOf(v, fmt, depth), Text(v, fmt, depth), v)
    decreases v, 2
  {
    hide StringText, IntText, UnitsOf, NumeralOf, RenderString, RenderNumeral, StringMeaning, NumeralMantissa,
      NumeralExponent, GoodUnits, GoodNumeral, StrictUnits, StrictNumeral, Paired;
    match v
    case Null =>
    case Bool(_) =>
    case Number(m, _) => NumeralOfIs(m);
    case String(s) => StringOfIs(s);
    case Array(_) => ArrayOfIs(v, fmt, depth);
    case Object(_) => ObjectOfIs(v, fmt, depth);
  }

  lemma {:induction false} ArrayOfIs(v: Value, fmt: bool, depth: nat)
    requires v.Array? && Printable(v)
    ensures Spells(SyntaxOf(v, fmt, depth), Text(v, fmt, depth), v)
    decreases v, 1
  {
    hide ItemsOf, ElementsText, RenderItems, StrictItems, GoodItems, ItemsPaired, ItemsMeaning, ItemsNesting,
      ElementsHeight;
    ItemsOfAre(v.elements, fmt, depth + 1, []);
    if v.elements == [] {
      EmptyLists(fmt, depth + 1);
    } else {
      ArrayText(RenderItems(ItemsOf(v.elements, fmt, depth + 1, [])), ElementsText(v.elements, fmt, depth + 1));
    }
  }

  lemma {:induction false} ObjectOfIs(v: Value, fmt: bool, depth: nat)
    requires v.Object? && Printable(v)
    ensures Spells(SyntaxOf(v, fmt, depth), Text(v, fmt, depth), v)
    decreases v, 1
  {
    hide EntriesOf, MembersText, RenderEntries, StrictEntries, GoodEntries, EntriesPaired, EntriesMeaning,
      EntriesNesting, MembersHeight, Tabs, StrictBlank, IsBlank;
    EntriesOfAre(v.members, fmt, depth + 1);
    TabsAreBlank(fmt, depth);
    if v.members == [] {
      EmptyLists(fmt, depth + 1);
    } else {
      ObjectText(EntriesOf(v.members, fmt, depth + 1), v.members, fmt, depth);
    }
  }

  lemma EmptyLists(fmt: bool, depth: nat)
    requires depth > 0
    ensures ItemsOf([], fmt, depth, []) == [] && ElementsText([], fmt, depth) == []
    ensures EntriesOf([], fmt, depth) == [] && MembersText([], fmt, depth) == []
  {}

  lemma ArrayText(items: bytes, elements: bytes)
    requires items == elements + [RBRACKET]
    ensures [LBRACKET] + ([] + items) == [LBRACKET] + elements + [RBRACKET]
  {}

  lemma ObjectText(entries: seq<Entry>, ms: seq<Member>, fmt: bool, depth: nat)
    requires entries != [] && entries[0].before == When(fmt, [NEWLINE] + Tabs(depth + 1))
    requires When(fmt, Tabs(depth + 1)) + RenderEntries(entries)
        == MembersText(ms, fmt, depth + 1) + When(fmt, Tabs(depth)) + [RBRACE]
    ensures [LBRACE] + (entries[0].before + RenderEntries(entries))
         == [LBRACE] + When(fmt, [NEWLINE]) + MembersText(ms, fmt, depth + 1) + When(fmt, Tabs(depth)) + [RBRACE]
  {
    hide Tabs, RenderEntries, MembersText;
    assert entries[0].before == When(fmt, [NEWLINE]) + When(fmt, Tabs(depth + 1));
    Wrapped([LBRACE], When(fmt, [NEWLINE]), When(fmt, Tabs(depth + 1)), RenderEntries(entries),
            MembersText(ms, fmt, depth + 1), When(fmt, Tabs(depth)), [RBRACE]);
  }

  lemma Wrapped(open: bytes, line: bytes, indent: bytes, entries: bytes, members: bytes, outdent: bytes, close: bytes)
    requires indent + entries == members + outdent + close
    ensures open + ((line + indent) + entries) == open + line + members + outdent + close
  {
    assert (line + indent) + entries == line + (indent + entries);
    assert open + (line + (members + outdent + close)) == open + line + members + outdent + close;
  }

  lemma {:induction false} ItemsOfAre(es: seq<Value>, fmt: bool, depth: nat, lead: bytes)
    requires AllPrintable(es) && StrictBlank(lead)
    ensures var items := ItemsOf(es, fmt, depth, lead);
      && |items| == |es| && StrictItems(items) && GoodItems(items) && ItemsPaired(items)
      && ItemsMeaning(items) == es && ItemsNesting(items) == ElementsHeight(es)
      && (es != [] ==> items[0].before == lead && RenderItems(items) == ElementsText(es, fmt, depth) + [RBRACKET])
    decreases es, 0
  {
    hide SyntaxOf, Render, Meaning, Strict, Good, AllPaired, Nesting, Height, Text, Printable;
    if es != [] {
      var items, gap := ItemsOf(es, fmt, depth, lead), When(fmt, [SPACE]);
      SyntaxOfIs(es[0], fmt, depth);
      ItemsOfAre(es[1..], fmt, depth, gap);
      var first, rest := Text(es[0], fmt, depth), ItemsOf(es[1..], fmt, depth, gap);
      assert items[1..] == rest;
      assert [es[0]] + es[1..] == es;
      if |es| == 1 {
        EmptyLists(fmt, 1);
        assert es[1..] == [];
        assert first + [] + [] == first;
        assert first + [] + [RBRACKET] == ElementsText(es, fmt, depth) + [RBRACKET];
      } else {
        assert first + [] + ([COMMA] + gap + RenderItems(rest))
            == first + ([COMMA] + gap) + ElementsText(es[1..], fmt, depth) + [RBRACKET];
      }
    }
  }

  lemma {:induction false} EntriesOfAre(ms: seq<Member>, fmt: bool, depth: nat)
    requires AllMembersPrintable(ms) && depth > 0
    ensures var es := EntriesOf(ms, fmt, depth);
      && |es| == |ms| && StrictEntries(es) && GoodEntries(es) && EntriesPaired(es)
      && EntriesMeaning(es) == ms && EntriesNesting(es) == MembersHeight(ms)
      && (ms != [] ==> (
            && es[0].before == When(fmt, [NEWLINE] + Tabs(depth))
            && When(fmt, Tabs(depth)) + RenderEntries(es)
               == MembersText(ms, fmt, depth) + When(fmt, Tabs(depth - 1)) + [RBRACE]))
    decreases ms, 0
  {
    hide SyntaxOf, UnitsOf, StringText, Render, Meaning, Strict, Good, AllPaired, Nesting, Height, Text, Printable,
      RenderString, StrictUnits, GoodUnits, Paired, StringMeaning, NulFree, StrictBlank, IsBlank, Tabs, RenderEntry,
      MemberText;
    if ms != [] {
      var es := EntriesOf(ms, fmt, depth);
      SyntaxOfIs(ms[0].val, fmt, depth);
      StringOfIs(ms[0].key);
      BlanksOf(fmt, depth, |ms| == 1);
      EntriesOfAre(ms[1..], fmt, depth);
      EntryText(ms[0], fmt, depth, |ms| == 1);
      var rest := EntriesOf(ms[1..], fmt, depth);
      var entry, member := RenderEntry(es[0]), MemberText(ms[0], fmt, depth, |ms| == 1);
      assert es[1..] == rest;
      assert [ms[0]] + ms[1..] == ms;
      var tabs, close := When(fmt, Tabs(depth)), When(fmt, Tabs(depth - 1));
      if |ms| == 1 {
        assert ms[1..] == [];
        assert MembersText(ms, fmt, depth) == member;
        JoinLast(tabs, entry, member, close);
      } else {
        JoinNext(tabs, entry, When(fmt, [NEWLINE]), es[1].before, RenderEntries(rest), member,
                 MembersText(ms[1..], fmt, depth), close);
      }
    }
  }

  lemma JoinLast(tabs: bytes, entry: bytes, member: bytes, close: bytes)
    requires tabs + entry == member + close
    ensures tabs + (entry + [RBRACE]) == member + close + [RBRACE]
  {}

  lemma JoinNext(tabs: bytes, entry: bytes, newline: bytes, before: bytes, next: bytes, member: bytes, members: bytes,
                 close: bytes)
    requires tabs + entry + [COMMA] + newline == member && before == newline + tabs
    requires tabs + next == members + close + [RBRACE]
    ensures tabs + (entry + ([COMMA] + before + next)) == (member + members) + close + [RBRACE]
  {
    assert tabs + (entry + ([COMMA] + before + next)) == (tabs + entry + [COMMA] + newline) + (tabs + next);
    assert member + (members + close + [RBRACE]) == (member + members) + close + [RBRACE];
  }

  lemma BlanksOf(fmt: bool, depth: nat, last: bool)
    requires depth > 0
    ensures StrictBlank([]) && StrictBlank(When(fmt, [NEWLINE] + Tabs(depth))) && StrictBlank(When(fmt, [TAB]))
    ensures StrictBlank(When(fmt && last, [NEWLINE] + Tabs(depth - 1)))
    ensures IsBlank([]) && IsBlank(When(fmt, [NEWLINE] + Tabs(depth))) && IsBlank(When(fmt, [TAB]))
    ensures IsBlank(When(fmt && last, [NEWLINE] + Tabs(depth - 1)))
    ensures When(fmt, [NEWLINE] + Tabs(depth)) == When(fmt, [NEWLINE]) + When(fmt, Tabs(depth))
  {}

  /** A member's text is its entry's text, up to the comma, the newline and the indents. */
  lemma EntryText(m: Member, fmt: bool, depth: nat, last: bool)
    requires depth > 0
    requires Render(SyntaxOf(m.val, fmt, depth)) == Text(m.val, fmt, depth)
    requires RenderString(UnitsOf(m.key)) == StringText(m.key)
    ensures var entry := When(fmt, Tabs(depth)) + RenderEntry(EntryOf(m, fmt, depth, last));
      if last then entry == MemberText(m, fmt, depth, last) + When(fmt, Tabs(depth - 1))
      else entry + [COMMA] + When(fmt, [NEWLINE]) == MemberText(m, fmt, depth, last)
  {
    hide SyntaxOf, UnitsOf, StringText, Render, RenderString, Text, Tabs;
  }

  /** Print, then parse: the same tree, and the parse ends where the text ends. */
  lemma RoundTrip(v: Value, fmt: bool, rest: bytes)
    requires Printable(v) && Height(v) <= NESTING_LIMIT
    requires v.Number? && rest != [] ==> !IsNumberChar(rest[0])
    ensures ReadDocument(Text(v, fmt, 0) + rest, false) == Parsed(v, |Text(v, fmt, 0)|)
  {
    hide SyntaxOf, Text, Printable, Height, ReadDocument, Render, Meaning, Strict, Good, AllPaired, Nesting;
    SyntaxOfIs(v, fmt, 0);
    SameKind(v, fmt);
    var s := SyntaxOf(v, fmt, 0);
    assert [] + [] + Render(s) + rest == Text(v, fmt, 0) + rest;
    assert rest != [] ==> (Render(s) + rest)[|Render(s)|] == rest[0];
    ReadsDocument(false, [], s, rest);
  }

  /** Whatever is printed, formatted or not, is JSON in the sense of RFC 8259. */
  lemma PrintsJson(v: Value, fmt: bool)
    requires Printable(v)
    ensures IsJson(Text(v, fmt, 0))
  {
    hide SyntaxOf, Text, Printable, Height, Render, Meaning, Strict, Good, AllPaired, Nesting;
    SyntaxOfIs(v, fmt, 0);
    var s := SyntaxOf(v, fmt, 0);
    assert [] + Render(s) + [] == Text(v, fmt, 0);
    assert IsDocument(Text(v, fmt, 0), [], s, []);
  }

  lemma SameKind(v: Value, fmt: bool)
    ensures SyntaxOf(v, fmt, 0).NumberSyntax? <==> v.Number?
  {}

  // ----- the layout -----

  function Join(parts: seq<bytes>, separator: bytes): bytes {
    if parts == [] then []
    else if |parts| == 1 then parts[0]
    else parts[0] + separator + Join(parts[1..], separator)
  }

  function TextsOf(es: seq<Value>, fmt: bool, depth: nat): (r: seq<bytes>)
    ensures |r| == |es| && forall i :: 0 <= i < |r| ==> r[i] == Text(es[i], fmt, depth)
  {
    if es == [] then [] else [Text(es[0], fmt, depth)] + TextsOf(es[1..], fmt, depth)
  }

  /** The members, each on a line of its own when formatted: a newline, a tab for every open brace, the
      name, a colon and a tab, and the value. */
  function LinesOf(ms: seq<Member>, fmt: bool, depth: nat): (r: seq<bytes>)
    ensures |r| == |ms| && forall i :: 0 <= i < |r| ==> r[i] == LineOf(ms[i], fmt, depth)
  {
    if ms == [] then [] else [LineOf(ms[0], fmt, depth)] + LinesOf(ms[1..], fmt, depth)
  }

  function LineOf(m: Member, fmt: bool, depth: nat): bytes {
    if fmt then [NEWLINE] + Tabs(depth) + StringText(m.key) + [COLON, TAB] + Text(m.val, fmt, depth)
    else StringText(m.key) + [COLON] + Text(m.val, fmt, depth)
  }

  /** An array is its elements with commas between, each followed by a space when formatted. */
  lemma ArrayLayout(es: seq<Value>, fmt: bool, depth: nat)
    ensures Text(Array(es), fmt, depth)
         == [LBRACKET] + Join(TextsOf(es, fmt, depth + 1), if fmt then [COMMA, SPACE] else [COMMA]) + [RBRACKET]
  {
    ElementsJoined(es, fmt, depth + 1);
  }

  lemma {:induction false} ElementsJoined(es: seq<Value>, fmt: bool, depth: nat)
    ensures ElementsText(es, fmt, depth) == Join(TextsOf(es, fmt, depth), if fmt then [COMMA, SPACE] else [COMMA])
    decreases |es|
  {
    hide Text;
    if es != [] {
      ElementsJoined(es[1..], fmt, depth);
      assert TextsOf(es, fmt, depth)[1..] == TextsOf(es[1..], fmt, depth);
      if |es| == 1 {
        assert es[1..] == [];
        assert Text(es[0], fmt, depth) + [] + [] == Text(es[0], fmt, depth);
      } else {
        assert [COMMA] + When(fmt, [SPACE]) == if fmt then [COMMA, SPACE] else [COMMA];
      }
    }
  }

  /** An object is its members with commas between; when formatted, its closing brace stands on a line of
      its own behind one tab less. */
  lemma ObjectLayout(ms: seq<Member>, fmt: bool, depth: nat)
    ensures Text(Object(ms), fmt, depth)
         == [LBRACE] + Join(LinesOf(ms, fmt, depth + 1), [COMMA])
            + (if fmt then [NEWLINE] + Tabs(depth) else []) + [RBRACE]
  {
    hide MembersText, LinesOf, Join, Tabs;
    MembersJoined(ms, fmt, depth + 1);
    var lines, newline := Join(LinesOf(ms, fmt, depth + 1), [COMMA]), When(fmt, [NEWLINE]);
    Regroup([LBRACE], newline, MembersText(ms, fmt, depth + 1));
    Regroup([LBRACE], lines, newline);
    assert When(fmt, [NEWLINE]) + When(fmt, Tabs(depth)) == if fmt then [NEWLINE] + Tabs(depth) else [];
    Regroup([LBRACE] + lines, newline, When(fmt, Tabs(depth)));
  }

  lemma MemberLine(m: Member, fmt: bool, depth: nat, last: bool)
    ensures When(fmt, [NEWLINE]) + MemberText(m, fmt, depth, last)
         == LineOf(m, fmt, depth) + (if last then [] else [COMMA]) + When(fmt, [NEWLINE])
  {
    hide Text, Tabs, StringText;
    if fmt {
      assert [COLON] + [TAB] == [COLON, TAB];
    }
  }

  /** Each newline stands behind a member in the loop, and before one here. */
  lemma {:induction false} MembersJoined(ms: seq<Member>, fmt: bool, depth: nat)
    ensures When(fmt, [NEWLINE]) + MembersText(ms, fmt, depth)
         == Join(LinesOf(ms, fmt, depth), [COMMA]) + When(fmt, [NEWLINE])
    decreases |ms|
  {
    hide LineOf, MemberText;
    if ms != [] {
      var rest := ms[1..];
      MembersJoined(rest, fmt, depth);
      MemberLine(ms[0], fmt, depth, |ms| == 1);
      assert LinesOf(ms, fmt, depth)[1..] == LinesOf(rest, fmt, depth);
      var comma: bytes, lines := if |ms| == 1 then [] else [COMMA], Join(LinesOf(rest, fmt, depth), [COMMA]);
      Shifted(When(fmt, [NEWLINE]), MemberText(ms[0], fmt, depth, |ms| == 1), LineOf(ms[0], fmt, depth), comma,
              MembersText(rest, fmt, depth), lines);
    }
  }

  lemma Shifted(newline: bytes, member: bytes, line: bytes, comma: bytes, members: bytes, lines: bytes)
    requires newline + member == line + comma + newline && newline + members == lines + newline
    ensures newline + (member + members) == line + comma + lines + newline
    ensures comma == [] && lines == [] ==> newline + (member + members) == line + newline
  {
    assert newline + (member + members) == (newline + member) + members;
    assert (line + comma + newline) + members == line + comma + (newline + members);
  }

  /** What stands in a string: the seven bytes with an escape of two characters, the other control bytes
      as `\u00` and two lower-case digits, and every other byte as it is. */
  lemma EscapesWritten(b: byte)
    ensures EscapeByte(0x22) == [92, 0x22] && EscapeByte(0x5C) == [92, 0x5C] && EscapeByte(0x08) == [92, 98]
    ensures EscapeByte(0x0C) == [92, 102] && EscapeByte(0x0A) == [92, 110] && EscapeByte(0x0D) == [92, 114]
    ensures EscapeByte(0x09) == [92, 116]
    ensures b < 32 && b !in {8, 9, 10, 12, 13} ==>
              EscapeByte(b) == [92, 117, 48, 48, "01"[b / 16] as int, "0123456789abcdef"[b % 16] as int]
    ensures b >= 32 && b !in {0x22, 0x5C} ==> EscapeByte(b) == [b]
  {}
}
