/** JSON texts as concrete syntax trees. `Good` trees are everything that cJSON takes for JSON;
    `Strict` ones are those of sections 2 to 7 of RFC 8259. Either way a tree is every choice of
    white space, escapes and numerals of its text, and has a meaning. */
module JsonSyntax {
  import opened Bytes
  import opened Decimals
  import opened Utf16
  import opened JsonValue
  import opened JsonReader

  /** One piece of a string: a byte that stands for itself, a two-character escape, a `\u` escape
      with the 16-bit value cJSON gives it, or a last backslash that takes the closing quote for its
      second byte. */
  datatype Unit =
    | Plain(b: byte)
    | Short(letter: byte)
    | Unicode(text: bytes, code: nat)
    | Hanging

  datatype Exponent = Exponent(letter: byte, sign: bytes, digits: bytes)

  datatype Numeral =
    Numeral(negative: bool, whole: bytes, point: bool, fraction: bytes, exponent: Option<Exponent>)

  /** `blank` is the white space between the brackets of an empty array or object. */
  datatype Syntax =
    | NullSyntax
    | BoolSyntax(b: bool)
    | NumberSyntax(numeral: Numeral)
    | StringSyntax(units: seq<Unit>)
    | ArraySyntax(blank: bytes, items: seq<Item>)
    | ObjectSyntax(blank: bytes, entries: seq<Entry>)

  datatype Item = Item(before: bytes, val: Syntax, after: bytes)

  datatype Entry =
    Entry(before: bytes, key: seq<Unit>, afterKey: bytes, beforeVal: bytes, val: Syntax, after: bytes)

  // ----- the text -----

  function RenderUnit(u: Unit): bytes {
    match u
    case Plain(b) => [b]
    case Short(letter) => [BACKSLASH, letter]
    case Unicode(text, _) => text
    case Hanging => [BACKSLASH]
  }

  function RenderUnits(us: seq<Unit>): bytes {
    if us == [] then [] else RenderUnit(us[0]) + RenderUnits(us[1..])
  }

  function RenderString(us: seq<Unit>): bytes { [QUOTE] + RenderUnits(us) + [QUOTE] }

  function RenderExponent(e: Option<Exponent>): bytes {
    match e
    case None => []
    case Some(x) => [x.letter] + x.sign + x.digits
  }

  function RenderNumeral(n: Numeral): bytes {
    (if n.negative then [MINUS] else []) + n.whole + (if n.point then [POINT] else []) + n.fraction
    + RenderExponent(n.exponent)
  }

  function Render(s: Syntax): bytes {
    match s
    case NullSyntax => NULL_TEXT
    case BoolSyntax(b) => if b then TRUE_TEXT else FALSE_TEXT
    case NumberSyntax(n) => RenderNumeral(n)
    case StringSyntax(us) => RenderString(us)
    case ArraySyntax(blank, items) =>
      [LBRACKET] + (if items == [] then blank + [RBRACKET] else items[0].before + RenderItems(items))
    case ObjectSyntax(blank, entries) =>
      [LBRACE] + (if entries == [] then blank + [RBRACE] else entries[0].before + RenderEntries(entries))
  }

  /** The items from the first value on, through the closing bracket. */
  function RenderItems(items: seq<Item>): bytes
    requires items != []
  {
    Render(items[0].val) + items[0].after
    + if |items| == 1 then [RBRACKET] else [COMMA] + items[1].before + RenderItems(items[1..])
  }

  /** The entries from the first name on, through the closing brace. */
  function RenderEntries(es: seq<Entry>): bytes
    requires es != []
  {
    RenderEntry(es[0]) + if |es| == 1 then [RBRACE] else [COMMA] + es[1].before + RenderEntries(es[1..])
  }

  function RenderEntry(e: Entry): bytes {
    RenderString(e.key) + e.afterKey + [COLON] + e.beforeVal + Render(e.val) + e.after
  }

  // ----- what cJSON takes for JSON -----

  /** White space is every byte up to the space. */
  predicate IsBlank(s: bytes) { forall i :: 0 <= i < |s| ==> s[i] <= SPACE }

  /** Control bytes stand for themselves, and a quote may too. Four bytes behind `\u` that are not
      all hexadecimal digits have the value 0. */
  predicate GoodUnit(u: Unit) {
    match u
    case Plain(b) => b != BACKSLASH
    case Short(letter) => letter != LETTER_U && SimpleEscape(letter).Some?
    case Unicode(text, code) =>
      |text| == 6 && text[0] == BACKSLASH && text[1] == LETTER_U && Hex4(text[2..6]) == code
    case Hanging => true
  }

  predicate GoodPieces(us: seq<Unit>) {
    && (forall i :: 0 <= i < |us| ==> GoodUnit(us[i]))
    && (forall i :: 0 <= i < |us| - 1 ==> !us[i].Hanging?)
  }

  /** How a string ends: taken two by two behind backslashes, no quote is left over before it. */
  predicate Unclosed(s: bytes) {
    s == [] || (if s[0] == BACKSLASH then |s| >= 2 && Unclosed(s[2..]) else s[0] != QUOTE && Unclosed(s[1..]))
  }

  predicate GoodUnits(us: seq<Unit>) { GoodPieces(us) && Unclosed(RenderUnits(us)) }

  predicate GoodExponent(e: Exponent) {
    && (e.letter == 101 || e.letter == 69)
    && (e.sign == [] || e.sign == [PLUS] || e.sign == [MINUS])
    && e.digits != [] && AllDigits(e.digits)
  }

  /** Leading zeros are allowed, and so are a point without a fraction and, behind a minus sign, a
      fraction without a whole part. */
  predicate GoodNumeral(n: Numeral) {
    && AllDigits(n.whole) && AllDigits(n.fraction) && n.whole + n.fraction != []
    && (n.point || n.fraction == []) && (n.negative || n.whole != [])
    && (n.exponent.Some? ==> GoodExponent(n.exponent.value))
  }

  predicate Good(s: Syntax) {
    match s
    case NullSyntax => true
    case BoolSyntax(_) => true
    case NumberSyntax(n) => GoodNumeral(n)
    case StringSyntax(us) => GoodUnits(us)
    case ArraySyntax(blank, items) => IsBlank(blank) && GoodItems(items)
    case ObjectSyntax(blank, entries) => IsBlank(blank) && GoodEntries(entries)
  }

  predicate GoodItems(items: seq<Item>) {
    items == [] || (IsBlank(items[0].before) && Good(items[0].val) && IsBlank(items[0].after) && GoodItems(items[1..]))
  }

  predicate GoodEntries(es: seq<Entry>) { es == [] || (GoodEntry(es[0]) && GoodEntries(es[1..])) }

  predicate GoodEntry(e: Entry) {
    && IsBlank(e.before) && GoodUnits(e.key) && IsBlank(e.afterKey)
    && IsBlank(e.beforeVal) && Good(e.val) && IsBlank(e.after)
  }

  // ----- surrogate escapes -----

  predicate High(u: Unit) { u.Unicode? && IsHighSurrogate(u.code) }
  predicate Low(u: Unit) { u.Unicode? && IsLowSurrogate(u.code) }

  /** Every high surrogate is followed at once by a low one, and no low one stands alone. */
  predicate Paired(us: seq<Unit>) { forall i :: 0 <= i < |us| ==> PairedAt(us, i) }

  predicate PairedAt(us: seq<Unit>, i: nat)
    requires i < |us|
  {
    && (High(us[i]) ==> i + 1 < |us| && Low(us[i + 1]))
    && (Low(us[i]) ==> i > 0 && High(us[i - 1]))
  }

  /** All strings of a tree are paired. */
  predicate AllPaired(s: Syntax) {
    match s
    case StringSyntax(us) => Paired(us)
    case ArraySyntax(_, items) => ItemsPaired(items)
    case ObjectSyntax(_, entries) => EntriesPaired(entries)
    case _ => true
  }

  predicate ItemsPaired(items: seq<Item>) { items == [] || (AllPaired(items[0].val) && ItemsPaired(items[1..])) }

  predicate EntriesPaired(es: seq<Entry>) {
    es == [] || (Paired(es[0].key) && AllPaired(es[0].val) && EntriesPaired(es[1..]))
  }

  // ----- the meaning -----

  /** How many units the first character takes. */
  function Width(us: seq<Unit>): (n: nat)
    requires us != []
    ensures 1 <= n <= 2 && n <= |us|
  {
    if High(us[0]) && |us| > 1 && Low(us[1]) then 2 else 1
  }

  function FirstMeaning(us: seq<Unit>): bytes
    requires us != [] && GoodPieces(us)
  {
    match us[0]
    case Plain(b) => [b]
    case Short(letter) => [SimpleEscape(letter).value]
    case Unicode(_, code) => if Width(us) == 2 then Utf8(PairValue(code, us[1].code)) else Utf8(code)
    case Hanging => [QUOTE]
  }

  function UnitsMeaning(us: seq<Unit>): bytes
    requires GoodPieces(us)
    decreases |us|
  {
    if us == [] then [] else FirstMeaning(us) + UnitsMeaning(us[Width(us)..])
  }

  /** A C string, which a character U+0000 ends. */
  function StringMeaning(us: seq<Unit>): bytes
    requires GoodUnits(us)
  {
    CString(UnitsMeaning(us))
  }

  function NumeralMantissa(n: Numeral): int
    requires GoodNumeral(n)
  {
    AllDigitsConcat(n.whole, n.fraction);
    if n.negative then -(DigitsValue(n.whole + n.fraction) as int) else DigitsValue(n.whole + n.fraction)
  }

  function Power(e: Option<Exponent>): int
    requires e.Some? ==> GoodExponent(e.value)
  {
    match e
    case None => 0
    case Some(x) => if x.sign == [MINUS] then -(DigitsValue(x.digits) as int) else DigitsValue(x.digits)
  }

  function NumeralExponent(n: Numeral): int
    requires GoodNumeral(n)
  {
    Power(n.exponent) - |n.fraction|
  }

  function Meaning(s: Syntax): Value
    requires Good(s)
  {
    match s
    case NullSyntax => Null
    case BoolSyntax(b) => Bool(b)
    case NumberSyntax(n) => Number(NumeralMantissa(n), NumeralExponent(n))
    case StringSyntax(us) => String(StringMeaning(us))
    case ArraySyntax(_, items) => Array(ItemsMeaning(items))
    case ObjectSyntax(_, entries) => Object(EntriesMeaning(entries))
  }

  function ItemsMeaning(items: seq<Item>): seq<Value>
    requires GoodItems(items)
  {
    if items == [] then [] else [Meaning(items[0].val)] + ItemsMeaning(items[1..])
  }

  function EntryMeaning(e: Entry): Member
    requires GoodEntry(e)
  {
    Member(StringMeaning(e.key), Meaning(e.val))
  }

  function EntriesMeaning(es: seq<Entry>): seq<Member>
    requires GoodEntries(es)
  {
    if es == [] then [] else [EntryMeaning(es[0])] + EntriesMeaning(es[1..])
  }

  function Max(a: nat, b: nat): nat { if a > b then a else b }

  /** How deep arrays and objects nest. */
  function Nesting(s: Syntax): nat {
    match s
    case ArraySyntax(_, items) => 1 + ItemsNesting(items)
    case ObjectSyntax(_, entries) => 1 + EntriesNesting(entries)
    case _ => 0
  }

  function ItemsNesting(items: seq<Item>): nat {
    if items == [] then 0 else Max(Nesting(items[0].val), ItemsNesting(items[1..]))
  }

  function EntriesNesting(es: seq<Entry>): nat {
    if es == [] then 0 else Max(Nesting(es[0].val), EntriesNesting(es[1..]))
  }

  // ----- what follows a value -----

  /** At `i` stand a letter, perhaps a sign, and a digit. */
  predicate ExponentAt(c: bytes, i: nat) {
    && i + 1 < |c| && (c[i] == 101 || c[i] == 69)
    && var k := SignEnd(c, i + 1); k < |c| && IsDigit(c[k])
  }

  /** What stands at `end` does not continue the numeral before it. */
  predicate NumeralEnds(c: bytes, n: Numeral, end: nat) {
    && (end < |c| ==> !IsDigit(c[end]))
    && (n.exponent.None? ==> !ExponentAt(c, end) && (n.point || end >= |c| || c[end] != POINT))
  }

  predicate Stops(c: bytes, s: Syntax, end: nat) { s.NumberSyntax? ==> NumeralEnds(c, s.numeral, end) }

  // ----- texts in a buffer -----

  lemma AtByte(c: bytes, off: nat, b: byte)
    ensures At(c, off, [b]) <==> off < |c| && c[off] == b
  {}

  lemma AtBytes(c: bytes, off: nat, t: bytes)
    requires At(c, off, t)
    ensures forall k :: 0 <= k < |t| ==> t[k] == c[off + k]
  {}

  lemma AtNothing(c: bytes, off: nat)
    ensures At(c, off, []) <==> off <= |c|
  {}

  lemma SkipsBlank(c: bytes, off: nat, blank: bytes, next: nat)
    requires At(c, off, blank) && IsBlank(blank) && next == off + |blank|
    requires next < |c| && c[next] > SPACE
    ensures SkipSpace(c, off) == next
  {}
}
